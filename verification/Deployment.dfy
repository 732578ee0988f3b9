/**
 The executor and everyone else on one API server: every manager call, the
 executor's own included, is a sequence of loads, conflicting writes and
 reloads. The steps refine those of the executor machine, where a call is a
 single commit, so its bound holds for every version of the store.
 */
module Deployment {
  import opened Options
  import opened ProjectStatuses
  import opened ProjectLists
  import Machine = ExecutorMachine
  import Writes = OptimisticWrites

  /** The call the executor waits for, and the step it reports. */
  datatype Asking = NotAsking | Asking(call: nat, step: Machine.Event)

  datatype State = State(server: Writes.Server, mode: Machine.Mode, asking: Asking)

  datatype Event =
    | Others(ev: Writes.Event)
    | Local(step: Machine.Event)
    | Ask(call: nat, step: Machine.Event, attempts: nat)
    | Own(ev: Writes.Event)
    | Answer

  function Stored(s: State): seq<Entry> {
    Writes.StateAt(s.server.initial, s.server.log, |s.server.log|)
  }

  predicate Reports(step: Machine.Event) { step.Finish? || step.Start? }

  /** The same step, committed at the given time with the given end. */
  function At(step: Machine.Event, now: int, call: Machine.Call): Machine.Event
    requires Reports(step)
  {
    if step.Finish? then step.(now := now, call := call) else Machine.Start(now, call)
  }

  ghost predicate MayReport(mode: Machine.Mode, step: Machine.Event) {
    Reports(step) && Machine.Enabled(Machine.System([], mode), step)
  }

  /** The update with which the executor reports the step. */
  ghost function ReportOf(mode: Machine.Mode, step: Machine.Event): Op
    requires MayReport(mode, step)
  {
    if step.Finish? then
      UpdateOne(mode.snapshot[mode.next].name, Machine.Finished(step.outcome, step.duration, step.result))
    else UpdateOne(mode.order[mode.next].name, Machine.STARTED)
  }

  ghost function ModeAfter(mode: Machine.Mode, step: Machine.Event): Machine.Mode
    requires MayReport(mode, step)
  {
    Machine.Next(Machine.System([], mode), At(step, 0, Machine.Succeeds)).mode
  }

  /** A snapshot is some version of the store; everyone else only schedules and reconciles. */
  ghost predicate Enabled(s: State, ev: Event) {
    match ev
    case Others(e) =>
      && Writes.Enabled(s.server, e)
      && (s.asking.Asking? ==> e.caller != s.asking.call)
      && (e.Invoke? ==> Foreign(e.op))
    case Local(step) =>
      && s.asking.NotAsking? && Machine.Enabled(Machine.System(Stored(s), s.mode), step)
      && !Reports(step) && !step.OtherCommit?
      && (step.Begin? ==> exists v :: 0 <= v <= |s.server.log| &&
                            step.snapshot == Writes.StateAt(s.server.initial, s.server.log, v))
    case Ask(call, step, attempts) =>
      s.asking.NotAsking? && MayReport(s.mode, step) && call !in s.server.calls && attempts >= 1
    case Own(e) => s.asking.Asking? && e.caller == s.asking.call && Writes.Enabled(s.server, e)
    case Answer =>
      && s.asking.Asking? && s.asking.call in s.server.calls && MayReport(s.mode, s.asking.step)
      && (Phase(s).Succeeded? || Phase(s).Erred?)
  }

  function Phase(s: State): Writes.Phase
    requires s.asking.Asking? && s.asking.call in s.server.calls
  {
    s.server.calls[s.asking.call].phase
  }

  ghost function Next(s: State, ev: Event): State
    requires Enabled(s, ev)
  {
    match ev
    case Others(e) => s.(server := Writes.Next(s.server, e))
    case Local(step) => s.(mode := Machine.Next(Machine.System(Stored(s), s.mode), step).mode)
    case Ask(call, step, attempts) =>
      s.(server := Writes.Next(s.server, Writes.Invoke(call, ReportOf(s.mode, step), attempts)),
         asking := Asking(call, step))
    case Own(e) => s.(server := Writes.Next(s.server, e))
    case Answer =>
      s.(mode := if Phase(s).Succeeded? then ModeAfter(s.mode, s.asking.step) else Machine.Idle, asking := NotAsking)
  }

  // ---------------------------------------------------------------------
  // Refinement
  // ---------------------------------------------------------------------

  /** Calls still able to commit are the executor's current one, reporting
      its step, and others that only schedule and reconcile. */
  ghost predicate Inv(s: State) {
    && Writes.Inv(s.server)
    && (s.asking.Asking? ==>
          && s.asking.call in s.server.calls && MayReport(s.mode, s.asking.step)
          && s.server.calls[s.asking.call].op == ReportOf(s.mode, s.asking.step))
    && (forall c :: c in s.server.calls && (s.asking.Asking? ==> c != s.asking.call) ==>
          s.server.calls[c].phase.Succeeded? || s.server.calls[c].phase.Erred? || s.server.calls[c].phase.Reloading?
          || Foreign(s.server.calls[c].op))
  }

  /** Where the machine stands: past the step as soon as its commit is in, and idle once the call has failed. */
  ghost function Abstract(s: State): Machine.System
    requires Inv(s)
  {
    Machine.System(Stored(s),
      if s.asking.NotAsking? then s.mode
      else match Phase(s)
           case Ready(_) => s.mode
           case Loaded(_, _, _) => s.mode
           case Reloading => ModeAfter(s.mode, s.asking.step)
           case Succeeded => ModeAfter(s.mode, s.asking.step)
           case Erred => Machine.Idle)
  }

  lemma StepKeepsInv(s: State, ev: Event)
    requires Inv(s) && Enabled(s, ev)
    ensures Inv(Next(s, ev))
  {
    hide Writes.Inv, Machine.Enabled, Machine.Next, Foreign;
    match ev
    case Others(e) => Writes.StepKeepsInv(s.server, e);
    case Own(e) => Writes.StepKeepsInv(s.server, e);
    case Ask(call, step, attempts) =>
      Writes.StepKeepsInv(s.server, Writes.Invoke(call, ReportOf(s.mode, step), attempts));
    case _ =>
  }

  /** A write that commits applies the operation to the current list. */
  lemma CommitIsApply(server: Writes.Server, c: nat, now: int)
    requires Writes.Inv(server) && c in server.calls
    requires server.calls[c].phase.Loaded? && server.calls[c].phase.version == |server.log|
    ensures var after := Writes.Committed(server, c, now).log;
            Writes.StateAt(server.initial, after, |after|) ==
              Apply(server.calls[c].op, Writes.StateAt(server.initial, server.log, |server.log|), now)
  {
    assert Writes.CallInv(server, c);
  }

  /** The server step puts the caller's operation into the store. */
  predicate Commits(server: Writes.Server, e: Writes.Event) {
    && (e.Write? || e.WriteButLoseAnswer?) && e.caller in server.calls
    && server.calls[e.caller].phase.Loaded? && server.calls[e.caller].phase.version == |server.log|
  }

  lemma OtherwiseStoreStays(server: Writes.Server, e: Writes.Event)
    requires Writes.Enabled(server, e) && !Commits(server, e)
    ensures Writes.Next(server, e).log == server.log && Writes.Next(server, e).initial == server.initial
  {
  }

  lemma CommittedStore(server: Writes.Server, e: Writes.Event)
    requires Writes.Inv(server) && Writes.Enabled(server, e) && Commits(server, e)
    ensures var t := Writes.Next(server, e);
            Writes.StateAt(t.initial, t.log, |t.log|) ==
              Apply(server.calls[e.caller].op, Writes.StateAt(server.initial, server.log, |server.log|), e.now)
  {
    CommitIsApply(server, e.caller, e.now);
  }

  ghost predicate Refines(s: State, t: State, step: Option<Machine.Event>)
    requires Inv(s) && Inv(t)
  {
    match step
    case None => Abstract(t) == Abstract(s)
    case Some(e) => Machine.Enabled(Abstract(s), e) && Abstract(t) == Machine.Next(Abstract(s), e)
  }

  lemma OthersRefine(s: State, e: Writes.Event) returns (step: Option<Machine.Event>)
    requires Inv(s) && Enabled(s, Others(e)) && Inv(Next(s, Others(e)))
    ensures Refines(s, Next(s, Others(e)), step)
    ensures step.Some? ==> !step.value.Begin?
  {
    hide Writes.Inv, Apply, Foreign, ModeAfter;
    if Commits(s.server, e) {
      CommittedStore(s.server, e);
      step := Some(Machine.OtherCommit(s.server.calls[e.caller].op, e.now));
    } else {
      OtherwiseStoreStays(s.server, e);
      step := None;
    }
  }

  /** The store plays no part in where a reported step leads. */
  lemma ReportedStep(m: Machine.System, step: Machine.Event, now: int, call: Machine.Call)
    requires MayReport(m.mode, step)
    ensures Reports(step)
    ensures var e := At(step, now, call);
            && Machine.Enabled(m, e)
            && Machine.Next(m, e).stored ==
                 (if call.FailsUncommitted? then m.stored else Apply(ReportOf(m.mode, step), m.stored, now))
            && Machine.Next(m, e).mode == (if call.Succeeds? then ModeAfter(m.mode, step) else Machine.Idle)
            && !m.mode.Idle? && !ModeAfter(m.mode, step).Idle?
  {
    hide Apply;
  }

  lemma OwnRefine(s: State, e: Writes.Event) returns (step: Option<Machine.Event>)
    requires Inv(s) && Enabled(s, Own(e)) && Inv(Next(s, Own(e)))
    ensures Refines(s, Next(s, Own(e)), step)
    ensures step.Some? ==> !step.value.Begin?
  {
    hide Writes.Inv, Apply, Foreign, ModeAfter, ReportOf, MayReport;
    var now := if e.Write? || e.WriteButLoseAnswer? then e.now else 0;
    var call := if e.Write? then Machine.Succeeds else Machine.CommitsButFails;
    ReportedStep(Abstract(s).(mode := s.mode), s.asking.step, now, call);
    if Commits(s.server, e) {
      CommittedStore(s.server, e);
      step := Some(At(s.asking.step, now, call));
      hide Machine.Next, Machine.Enabled;
    } else {
      OtherwiseStoreStays(s.server, e);
      var failed := Writes.Next(s.server, e).calls[e.caller].phase.Erred? && !Phase(s).Erred?;
      step := if failed then Some(Machine.Abort) else None;
    }
  }

  /** Each step is one of the machine's or none. */
  lemma StepRefines(s: State, ev: Event) returns (step: Option<Machine.Event>)
    requires Inv(s) && Enabled(s, ev)
    ensures Inv(Next(s, ev)) && Refines(s, Next(s, ev), step)
    ensures step.Some? && step.value.Begin? ==> ev == Local(step.value)
  {
    StepKeepsInv(s, ev);
    step := None;
    match ev
    case Others(e) => step := OthersRefine(s, e);
    case Local(e) => step := Some(e);
    case Own(e) => step := OwnRefine(s, e);
    case _ =>
  }

  // ---------------------------------------------------------------------
  // The bound
  // ---------------------------------------------------------------------

  ghost predicate Run(states: seq<State>, events: seq<Event>) {
    && |states| == |events| + 1
    && forall k :: 0 <= k < |events| ==> Enabled(states[k], events[k]) && states[k + 1] == Next(states[k], events[k])
  }

  /** Nobody has called yet, and at most p projects run. */
  ghost predicate Fresh(s: State, p: int) {
    && s.server.log == [] && s.server.calls == map[] && s.mode.Idle? && s.asking.NotAsking?
    && Consistent(s.server.initial) && Count(s.server.initial, Running) <= p
  }

  ghost predicate BeginsSafely(s: State, ev: Event, p: int) {
    ev.Local? && ev.step.Begin? && |NamesWith(Stored(s), Running)| <= p ==>
      Machine.SafeToBegin(Stored(s), ev.step.snapshot, ev.step.parallelism, p)
  }

  ghost predicate Within(s: State, p: int) {
    Inv(s) && Machine.Inv(Abstract(s)) && |Machine.Exposure(Abstract(s))| <= p
  }

  lemma StepStaysWithin(s: State, ev: Event, p: int)
    requires Within(s, p) && Enabled(s, ev) && BeginsSafely(s, ev, p)
    ensures Within(Next(s, ev), p)
  {
    var step := StepRefines(s, ev);
    hide Inv, Enabled, Next, Abstract, Machine.Enabled, NamesWith;
    if step.Some? {
      Machine.StepKeepsInv(Abstract(s), step.value);
      if step.value.Begin? {
        BeginningStaysWithin(s, ev, p);
      } else {
        Machine.ExposureNeverGrows(Abstract(s), step.value);
      }
    }
  }

  lemma BeginningStaysWithin(s: State, ev: Event, p: int)
    requires Within(s, p) && Enabled(s, ev) && ev.Local? && ev.step.Begin? && BeginsSafely(s, ev, p)
    ensures |Machine.Exposure(Machine.Next(Abstract(s), ev.step))| <= p
  {
    hide Writes.Inv, NamesWith;
    Machine.ExposureCoversRunning(Abstract(s));
    CountIsCardinality(Stored(s), Running);
  }

  /** In every run of the whole deployment, whatever loads lag, writes
      conflict and answers are lost: if each tick begins safely, no version of
      the store holds more than p Running projects. */
  lemma {:induction false} NoVersionExceedsParallelism(states: seq<State>, events: seq<Event>, p: int, k: nat)
    requires Run(states, events) && k < |states| && Fresh(states[0], p)
    requires forall i :: 0 <= i < |events| ==> BeginsSafely(states[i], events[i], p)
    ensures Within(states[k], p) && Count(Stored(states[k]), Running) <= p
  {
    if k == 0 {
      CountIsCardinality(states[0].server.initial, Running);
    } else {
      NoVersionExceedsParallelism(states, events, p, k - 1);
      StepStaysWithin(states[k - 1], events[k - 1], p);
      Machine.ExposureCoversRunning(Abstract(states[k]));
    }
  }
}
