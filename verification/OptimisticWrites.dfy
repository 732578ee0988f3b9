/**
 Manager calls under the API server's version check: load, transform, write
 back, and start over when the version has moved.
 */
module OptimisticWrites {
  import opened ProjectStatuses
  import opened ProjectLists

  /** A successful write: the operation, who wrote it, and the list it left. */
  datatype Commit = Commit(state: seq<Entry>, op: Op, caller: nat, now: int)

  /** The stored list after the first `version` commits. */
  function StateAt(initial: seq<Entry>, log: seq<Commit>, version: nat): seq<Entry>
    requires version <= |log|
  {
    if version == 0 then initial else log[version - 1].state
  }

  /** The history is a sequential composition: every commit applies its
      operation to exactly the state it replaces. */
  ghost predicate Sequential(initial: seq<Entry>, log: seq<Commit>) {
    forall k :: 0 <= k < |log| ==> log[k].state == Apply(log[k].op, StateAt(initial, log, k), log[k].now)
  }

  function CommitsOf(log: seq<Commit>, caller: nat): nat {
    if log == [] then 0
    else CommitsOf(log[..|log| - 1], caller) + if log[|log| - 1].caller == caller then 1 else 0
  }

  /** The caller's commits carry op and nothing else. */
  ghost predicate CommitsOnly(log: seq<Commit>, caller: nat, op: Op) {
    forall k :: 0 <= k < |log| && log[k].caller == caller ==> log[k].op == op
  }

  lemma CommitsOfSnoc(log: seq<Commit>, c: Commit, caller: nat)
    ensures CommitsOf(log + [c], caller) == CommitsOf(log, caller) + if c.caller == caller then 1 else 0
  {
  }

  lemma {:induction false} CommitsOfOthers(before: seq<Commit>, after: seq<Commit>, caller: nat)
    requires before <= after
    requires forall k :: |before| <= k < |after| ==> after[k].caller != caller
    ensures CommitsOf(after, caller) == CommitsOf(before, caller)
  {
    if |before| < |after| {
      CommitsOfOthers(before, after[..|after| - 1], caller);
    } else {
      assert before == after;
    }
  }

  lemma SequentialSnoc(initial: seq<Entry>, log: seq<Commit>, op: Op, caller: nat, now: int)
    requires Sequential(initial, log)
    ensures Sequential(initial, log + [Commit(Apply(op, StateAt(initial, log, |log|), now), op, caller, now)])
  {
    hide Apply;
    var longer := log + [Commit(Apply(op, StateAt(initial, log, |log|), now), op, caller, now)];
    forall k | 0 <= k < |longer|
      ensures longer[k].state == Apply(longer[k].op, StateAt(initial, longer, k), longer[k].now)
    {
      assert StateAt(initial, longer, k) == StateAt(initial, log, k);
      assert k < |log| ==> longer[k] == log[k];
    }
  }

  // ---------------------------------------------------------------------
  // All calls together, as a state machine
  // ---------------------------------------------------------------------

  datatype Phase =
    | Ready(attemptsLeft: nat)
    | Loaded(attemptsLeft: nat, version: nat, copy: seq<Entry>)
    | Reloading
    | Succeeded
    | Erred

  datatype Pending = Pending(op: Op, phase: Phase)

  datatype Server = Server(initial: seq<Entry>, log: seq<Commit>, calls: map<nat, Pending>)

  datatype Event =
    | Invoke(caller: nat, op: Op, attempts: nat)
    | Load(caller: nat, version: nat)
    | Write(caller: nat, now: int)
    | WriteButLoseAnswer(caller: nat, now: int)
    | Reload(caller: nat)
    | Error(caller: nat)

  /** A load may return any past version; an error may strike at any moment of a call. */
  ghost predicate Enabled(s: Server, ev: Event) {
    match ev
    case Invoke(c, _, attempts) => c !in s.calls && attempts >= 1
    case Load(c, version) => c in s.calls && s.calls[c].phase.Ready? && version <= |s.log|
    case Write(c, _) => c in s.calls && s.calls[c].phase.Loaded?
    case WriteButLoseAnswer(c, _) =>
      c in s.calls && s.calls[c].phase.Loaded? && s.calls[c].phase.version == |s.log|
    case Reload(c) => c in s.calls && s.calls[c].phase.Reloading?
    case Error(c) => c in s.calls && !s.calls[c].phase.Succeeded?
  }

  function WithPhase(s: Server, c: nat, phase: Phase): Server
    requires c in s.calls
  {
    s.(calls := s.calls[c := s.calls[c].(phase := phase)])
  }

  function Committed(s: Server, c: nat, now: int): Server
    requires c in s.calls && s.calls[c].phase.Loaded?
  {
    var call := s.calls[c];
    s.(log := s.log + [Commit(Apply(call.op, call.phase.copy, now), call.op, c, now)])
  }

  ghost function Next(s: Server, ev: Event): Server
    requires Enabled(s, ev)
  {
    match ev
    case Invoke(c, op, attempts) => s.(calls := s.calls[c := Pending(op, Ready(attempts))])
    case Load(c, version) =>
      WithPhase(s, c, Loaded(s.calls[c].phase.attemptsLeft, version, StateAt(s.initial, s.log, version)))
    case Write(c, now) =>
      var left := s.calls[c].phase.attemptsLeft;
      if s.calls[c].phase.version == |s.log| then WithPhase(Committed(s, c, now), c, Reloading)
      else WithPhase(s, c, if left <= 1 then Erred else Ready(left - 1))
    case WriteButLoseAnswer(c, now) => WithPhase(Committed(s, c, now), c, Erred)
    case Reload(c) => WithPhase(s, c, Succeeded)
    case Error(c) => WithPhase(s, c, Erred)
  }

  ghost predicate CallInv(s: Server, c: nat)
    requires c in s.calls
  {
    && CommitsOnly(s.log, c, s.calls[c].op)
    && match s.calls[c].phase
       case Ready(_) => CommitsOf(s.log, c) == 0
       case Loaded(_, version, copy) =>
         CommitsOf(s.log, c) == 0 && version <= |s.log| && copy == StateAt(s.initial, s.log, version)
       case Reloading => CommitsOf(s.log, c) == 1
       case Succeeded => CommitsOf(s.log, c) == 1
       case Erred => CommitsOf(s.log, c) <= 1
  }

  ghost predicate Inv(s: Server) {
    && Sequential(s.initial, s.log)
    && (forall c :: c in s.calls ==> CallInv(s, c))
    && (forall k :: 0 <= k < |s.log| ==> s.log[k].caller in s.calls)
  }

  lemma {:induction false} NoCommitsWithoutCaller(log: seq<Commit>, c: nat)
    requires forall k :: 0 <= k < |log| ==> log[k].caller != c
    ensures CommitsOf(log, c) == 0
  {
    if log != [] {
      NoCommitsWithoutCaller(log[..|log| - 1], c);
    }
  }

  lemma CommitKeepsCallInv(s: Server, c: nat, now: int, phase: Phase, d: nat)
    requires Inv(s) && c in s.calls && s.calls[c].phase.Loaded? && s.calls[c].phase.version == |s.log|
    requires phase.Reloading? || phase.Erred?
    requires d in s.calls
    ensures CallInv(WithPhase(Committed(s, c, now), c, phase), d)
  {
  }

  lemma CommitKeepsInv(s: Server, c: nat, now: int, phase: Phase)
    requires Inv(s) && c in s.calls && s.calls[c].phase.Loaded? && s.calls[c].phase.version == |s.log|
    requires phase.Reloading? || phase.Erred?
    ensures Inv(WithPhase(Committed(s, c, now), c, phase))
  {
    var t := WithPhase(Committed(s, c, now), c, phase);
    assert CallInv(s, c);
    SequentialSnoc(s.initial, s.log, s.calls[c].op, c, now);
    hide Apply, Sequential, CommitsOf;
    forall d | d in t.calls ensures CallInv(t, d) {
      CommitKeepsCallInv(s, c, now, phase, d);
    }
    assert forall k :: 0 <= k < |s.log| ==> t.log[k] == s.log[k];
  }

  /** A step that only moves one call to another phase. */
  lemma PhaseKeepsInv(s: Server, c: nat, phase: Phase)
    requires Inv(s) && c in s.calls
    requires CallInv(WithPhase(s, c, phase), c)
    ensures Inv(WithPhase(s, c, phase))
  {
    hide Apply, Sequential, CommitsOf;
    var t := WithPhase(s, c, phase);
    forall d | d in t.calls ensures CallInv(t, d) {
      assert d in s.calls && (d != c ==> CallInv(s, d));
    }
  }

  lemma InvokeKeepsInv(s: Server, c: nat, op: Op, attempts: nat)
    requires Inv(s) && c !in s.calls
    ensures Inv(s.(calls := s.calls[c := Pending(op, Ready(attempts))]))
  {
    NoCommitsWithoutCaller(s.log, c);
    hide Apply, Sequential, CommitsOf;
    var t := s.(calls := s.calls[c := Pending(op, Ready(attempts))]);
    forall d | d in t.calls ensures CallInv(t, d) {
      assert d != c ==> CallInv(s, d);
    }
  }

  lemma StepKeepsInv(s: Server, ev: Event)
    requires Inv(s) && Enabled(s, ev)
    ensures Inv(Next(s, ev))
  {
    hide Apply, Sequential, CommitsOf, CommitsOnly;
    assert !ev.Invoke? ==> CallInv(s, ev.caller);
    match ev
    case Invoke(c, op, attempts) => InvokeKeepsInv(s, c, op, attempts);
    case Load(c, version) =>
      PhaseKeepsInv(s, c, Loaded(s.calls[c].phase.attemptsLeft, version, StateAt(s.initial, s.log, version)));
    case Write(c, now) =>
      if s.calls[c].phase.version == |s.log| {
        CommitKeepsInv(s, c, now, Reloading);
      } else {
        var left := s.calls[c].phase.attemptsLeft;
        PhaseKeepsInv(s, c, if left <= 1 then Erred else Ready(left - 1));
      }
    case WriteButLoseAnswer(c, now) => CommitKeepsInv(s, c, now, Erred);
    case Reload(c) => PhaseKeepsInv(s, c, Succeeded);
    case Error(c) => PhaseKeepsInv(s, c, Erred);
  }

  lemma StepExtendsHistory(s: Server, ev: Event)
    requires Enabled(s, ev)
    ensures s.log <= Next(s, ev).log && Next(s, ev).initial == s.initial
  {
  }

  ghost predicate Run(states: seq<Server>, events: seq<Event>) {
    && |states| == |events| + 1
    && forall k :: 0 <= k < |events| ==> Enabled(states[k], events[k]) && states[k + 1] == Next(states[k], events[k])
  }

  lemma {:induction false} RunKeepsInv(states: seq<Server>, events: seq<Event>, k: nat)
    requires Run(states, events) && k < |states|
    requires states[0].log == [] && states[0].calls == map[]
    ensures Inv(states[k]) && states[k].initial == states[0].initial
  {
    hide Next, Enabled;
    if k > 0 {
      RunKeepsInv(states, events, k - 1);
      StepKeepsInv(states[k - 1], events[k - 1]);
      StepExtendsHistory(states[k - 1], events[k - 1]);
    }
  }

  /** In every run of concurrent calls the history is sequential; a call that
      reported success committed its operation exactly once, one that reported
      an error at most once, and one still under way has at most that commit;
      and what was committed stays in the history. */
  lemma CallsAreAtomic(states: seq<Server>, events: seq<Event>, k: nat, c: nat)
    requires Run(states, events) && k < |states|
    requires states[0].log == [] && states[0].calls == map[]
    requires c in states[k].calls
    ensures var s := states[k];
            && Sequential(states[0].initial, s.log)
            && CommitsOnly(s.log, c, s.calls[c].op)
            && CommitsOf(s.log, c) <= 1
            && (s.calls[c].phase.Succeeded? ==> CommitsOf(s.log, c) == 1)
            && (s.calls[c].phase.Ready? || s.calls[c].phase.Loaded? ==> CommitsOf(s.log, c) == 0)
            && forall j :: 0 <= j <= k ==> states[j].log <= s.log
  {
    RunKeepsInv(states, events, k);
    forall j | 0 <= j <= k ensures states[j].log <= states[k].log {
      HistoryOnlyGrows(states, events, j, k);
    }
    assert CallInv(states[k], c);
  }

  /** No committed change is lost: later histories extend earlier ones. */
  lemma {:induction false} HistoryOnlyGrows(states: seq<Server>, events: seq<Event>, j: nat, k: nat)
    requires Run(states, events) && j <= k < |states|
    ensures states[j].log <= states[k].log
  {
    hide Next, Enabled;
    if j < k {
      HistoryOnlyGrows(states, events, j, k - 1);
      StepExtendsHistory(states[k - 1], events[k - 1]);
    }
  }
}
