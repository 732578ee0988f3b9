/** The executor's tick as the loops it runs, with every commit it and others make recorded as a run of the machine. */
module ExecutorTick {
  import opened Options
  import opened Sequences
  import opened ProjectStatuses
  import opened ProjectLists
  import opened PrioritySort
  import opened StartQueue
  import opened ExecutorMachine

  datatype Lookup =
    | LookupFails
    | JobMissing
    | JobActive
    | JobEnded(completed: bool, duration: string, result: Option<string>, deletionFails: bool)

  datatype OtherActor = OtherActor(op: Op, now: int)

  /** Everything the tick cannot decide itself, by project name: what the
      cluster answers, how its own calls end, and which commits of other
      actors fall before each of its steps. */
  datatype World = World(
    lookup: string -> Lookup,
    creationFails: string -> bool,
    call: string -> Call,
    clock: string -> int,
    others: nat -> seq<OtherActor>)

  /** One round of the executor loop, and what others commit before it. */
  datatype Tick = Tick(before: seq<OtherActor>, loadFails: bool, parallelism: int, world: World)

  ghost predicate OnlyForeign(w: World) {
    forall n: nat, i :: 0 <= i < |w.others(n)| ==> Foreign(w.others(n)[i].op)
  }

  ghost predicate Quiet(w: World) {
    forall n: nat :: w.others(n) == []
  }

  predicate Ended(l: Lookup) { l.JobMissing? || l.JobEnded? }

  function Ending(l: Lookup): StatusUpdate {
    match l
    case JobEnded(completed, duration, result, _) => Finished(if completed then Completed else Failed, duration, result)
    case _ => Finished(Failed, "", None)
  }

  // ---------------------------------------------------------------------
  // What an uninterrupted tick does
  // ---------------------------------------------------------------------

  /** The list with the named projects' entries updated and the rest untouched. */
  function Rewrite(ps: seq<Entry>, names: set<string>, u: string -> StatusUpdate, clock: string -> int): seq<Entry> {
    seq(|ps|, i requires 0 <= i < |ps| =>
      if ps[i].name in names then Transition(ps[i], u(ps[i].name), clock(ps[i].name)) else ps[i])
  }

  ghost function EndedNames(ps: seq<Entry>, w: World): set<string> {
    set n | n in NamesWith(ps, Running) && Ended(w.lookup(n))
  }

  /** Running projects whose job is found still active. */
  function StillActive(ps: seq<Entry>, w: World): nat {
    if ps == [] then 0
    else
      var last := ps[|ps| - 1];
      StillActive(ps[..|ps| - 1], w) + if last.status.Running? && w.lookup(last.name).JobActive? then 1 else 0
  }

  /** Taking the outcome of this project ends the tick with an error. */
  predicate FinishErrs(e: Entry, w: World) {
    && e.status.Running?
    && match w.lookup(e.name)
       case LookupFails => true
       case JobActive => false
       case JobMissing => !w.call(e.name).Succeeds?
       case JobEnded(completed, _, _, deletionFails) => !w.call(e.name).Succeeds? || (completed && deletionFails)
  }

  lemma LookupFailureErrs(e: Entry, w: World)
    ensures e.status.Running? && w.lookup(e.name).LookupFails? ==> FinishErrs(e, w)
  {
  }

  /** Starting this project ends the tick with an error. */
  predicate StartErrs(name: string, w: World) {
    w.creationFails(name) || !w.call(name).Succeeds?
  }

  ghost predicate FirstPassErrs(ps: seq<Entry>, w: World) {
    exists i :: 0 <= i < |ps| && FinishErrs(ps[i], w)
  }

  ghost predicate SecondPassErrs(plan: seq<string>, w: World) {
    exists n :: n in plan && StartErrs(n, w)
  }

  ghost predicate TickErrs(ps: seq<Entry>, parallelism: int, w: World) {
    FirstPassErrs(ps, w) || SecondPassErrs(Plan(ps, parallelism - StillActive(ps, w)), w)
  }

  /** The jobs created out of a plan: up to the first error, and including
      that project if its job was created before the error. */
  function Launched(plan: seq<string>, w: World): seq<string> {
    if plan == [] || w.creationFails(plan[0]) then []
    else if StartErrs(plan[0], w) then plan[..1]
    else [plan[0]] + Launched(plan[1..], w)
  }

  /** The names started when the first error strikes. */
  ghost predicate EndsEarly(started: seq<string>, plan: seq<string>, w: World) {
    exists j :: 0 <= j < |plan| && StopsIn(started, plan, w, j)
  }

  ghost predicate StopsIn(started: seq<string>, plan: seq<string>, w: World, j: nat)
    requires j < |plan|
  {
    && (forall k :: 0 <= k < j ==> !StartErrs(plan[k], w))
    && StartErrs(plan[j], w)
    && started == if w.creationFails(plan[j]) then plan[..j] else plan[..j + 1]
  }

  lemma StopsAt(started: seq<string>, name: string, plan: seq<string>, w: World)
    requires Opens(started + [name], plan) && StartErrs(name, w)
    requires forall k :: 0 <= k < |started| ==> !StartErrs(started[k], w)
    ensures EndsEarly(if w.creationFails(name) then started else started + [name], plan, w)
  {
    assert plan[|started|] == name;
    assert StopsIn(if w.creationFails(name) then started else started + [name], plan, w, |started|);
  }

  lemma {:induction false} AllLaunched(plan: seq<string>, w: World)
    ensures !SecondPassErrs(plan, w) ==> Launched(plan, w) == plan
  {
    if plan != [] {
      AllLaunched(plan[1..], w);
      assert plan == [plan[0]] + plan[1..];
      assert plan[0] in plan && forall n :: n in plan[1..] ==> n in plan;
    }
  }

  lemma {:induction false} StoppedLaunch(started: seq<string>, plan: seq<string>, w: World, j: nat)
    requires j < |plan| && StopsIn(started, plan, w, j)
    ensures Launched(plan, w) == started
  {
    if j > 0 {
      var rest := if w.creationFails(plan[j]) then plan[1..j] else plan[1..j + 1];
      assert plan[1..][..j - 1] == plan[1..j] && plan[1..][..j] == plan[1..j + 1];
      StoppedLaunch(rest, plan[1..], w, j - 1);
    }
  }

  lemma WhatWasLaunched(started: seq<string>, plan: seq<string>, w: World, failed: bool)
    requires if failed then EndsEarly(started, plan, w)
             else started == plan && forall k :: 0 <= k < |started| ==> !StartErrs(started[k], w)
    ensures started == Launched(plan, w)
    ensures failed <==> SecondPassErrs(plan, w)
  {
    if failed {
      var j :| 0 <= j < |plan| && StopsIn(started, plan, w, j);
      StoppedLaunch(started, plan, w, j);
      assert plan[j] in plan;
    } else {
      AllLaunched(plan, w);
    }
  }

  /** The names are the first ones of the plan. */
  predicate Opens(names: seq<string>, plan: seq<string>) {
    names == FirstOf(plan, |names|)
  }

  /** What an undisturbed tick that meets no error makes of a project: the
      outcome of its job if that has ended, with its duration, result and time;
      a missing job counted as failed; a started project Running, without
      priority and duration; everything else as it was. */
  function Outcome(e: Entry, started: seq<string>, w: World): Entry {
    if e.status.Running? then
      match w.lookup(e.name)
      case JobEnded(completed, d, r, _) =>
        e.(status := if completed then Completed else Failed, priority := 0, lastRun := w.clock(e.name),
           duration := Some(d), result := if r.Some? then r else e.result)
      case JobMissing => e.(status := Failed, priority := 0, lastRun := w.clock(e.name), duration := Some(""))
      case _ => e
    else if e.name in started then e.(status := Running, priority := 0, duration := None)
    else e
  }

  ghost predicate OutcomesRecorded(ps: seq<Entry>, after: seq<Entry>, started: seq<string>, w: World) {
    |after| == |ps| && forall i :: 0 <= i < |ps| ==> after[i] == Outcome(ps[i], started, w)
  }

  function EndingOf(w: World): string -> StatusUpdate { n => Ending(w.lookup(n)) }
  function StartOf(): string -> StatusUpdate { n => STARTED }

  ghost function Freed(ps: seq<Entry>, w: World): seq<Entry> {
    Rewrite(ps, EndedNames(ps, w), EndingOf(w), w.clock)
  }

  ghost function AfterTick(ps: seq<Entry>, parallelism: int, w: World): seq<Entry> {
    Rewrite(Freed(ps, w), AsSet(Plan(ps, parallelism - StillActive(ps, w))), StartOf(), w.clock)
  }

  lemma TickIsRewrite(ps: seq<Entry>, parallelism: int, w: World)
    ensures AfterTick(ps, parallelism, w) ==
      Rewrite(Freed(ps, w), AsSet(Plan(ps, parallelism - StillActive(ps, w))), StartOf(), w.clock)
  {
  }

  lemma OutcomeAt(ps: seq<Entry>, parallelism: int, w: World, i: nat)
    requires UniqueNames(ps) && i < |ps|
    ensures AfterTick(ps, parallelism, w)[i] == Outcome(ps[i], Plan(ps, parallelism - StillActive(ps, w)), w)
  {
    EndedOrPlanned(ps, parallelism - StillActive(ps, w), w, i);
    hide Plan, EndedNames, StillActive, UniqueNames;
  }

  /** Project by project: which outcome an undisturbed tick records. */
  lemma TickRecordsOutcome(ps: seq<Entry>, parallelism: int, w: World, i: nat)
    requires UniqueNames(ps) && i < |ps|
    ensures |AfterTick(ps, parallelism, w)| == |ps|
    ensures var e, after, job := ps[i], AfterTick(ps, parallelism, w)[i], w.lookup(ps[i].name);
            && after.name == e.name
            && (e.status.Running? && job.JobEnded? ==>
                  && after.status == (if job.completed then Completed else Failed)
                  && after.duration == Some(job.duration) && after.lastRun == w.clock(e.name) && after.priority == 0
                  && after.result == if job.result.Some? then job.result else e.result)
            && (e.status.Running? && job.JobMissing? ==>
                  && after.status == Failed && after.lastRun == w.clock(e.name) && after.priority == 0
                  && after.duration == Some("") && after.result == e.result)
            && (e.status.Running? && (job.JobActive? || job.LookupFails?) ==> after == e)
            && (!e.status.Running? ==>
                  || after == e
                  || (e.status.Scheduled? && after == e.(status := Running, priority := 0, duration := None)))
  {
    OutcomeAt(ps, parallelism, w, i);
    EndedOrPlanned(ps, parallelism - StillActive(ps, w), w, i);
    hide Plan, EndedNames, StillActive, UniqueNames, AfterTick;
  }

  lemma TickInFull(ps: seq<Entry>, parallelism: int, w: World)
    requires UniqueNames(ps)
    ensures OutcomesRecorded(ps, AfterTick(ps, parallelism, w), Plan(ps, parallelism - StillActive(ps, w)), w)
  {
    forall i | 0 <= i < |ps|
      ensures AfterTick(ps, parallelism, w)[i] == Outcome(ps[i], Plan(ps, parallelism - StillActive(ps, w)), w)
    {
      OutcomeAt(ps, parallelism, w, i);
    }
    hide Plan, EndedNames, StillActive, UniqueNames, Outcome;
  }

  lemma EndedOrPlanned(ps: seq<Entry>, slots: int, w: World, i: nat)
    requires UniqueNames(ps) && i < |ps|
    ensures ps[i].name in EndedNames(ps, w) <==> ps[i].status.Running? && Ended(w.lookup(ps[i].name))
    ensures ps[i].name in Plan(ps, slots) ==> ps[i].status.Scheduled?
  {
    NotBothStatuses(ps, i, Running);
    if ps[i].name in Plan(ps, slots) {
      PlannedIsScheduled(ps, slots, i);
    }
    hide NamesWith, Plan;
  }

  lemma PlannedIsScheduled(ps: seq<Entry>, slots: int, i: nat)
    requires UniqueNames(ps) && i < |ps| && ps[i].name in Plan(ps, slots)
    ensures ps[i].status.Scheduled?
  {
    ScheduledInNames(Sorted(ps), ps[i].name);
    var k :| 0 <= k < |ps| && Sorted(ps)[k].name == ps[i].name && Sorted(ps)[k].status.Scheduled?;
    SortedMembers(ps, Sorted(ps)[k]);
  }

  lemma RewriteOneMore(ps: seq<Entry>, names: set<string>, u: string -> StatusUpdate, clock: string -> int, k: nat)
    requires UniqueNames(ps) && k < |ps| && ps[k].name !in names
    ensures Apply(UpdateOne(ps[k].name, u(ps[k].name)), Rewrite(ps, names, u, clock), clock(ps[k].name))
         == Rewrite(ps, names + {ps[k].name}, u, clock)
  {
    var before := Rewrite(ps, names, u, clock);
    assert before[k] == ps[k];
    PositionUnique(before, k);
  }

  ghost function ActiveNames(ps: seq<Entry>, w: World): set<string> {
    set n | n in NamesWith(ps, Running) && w.lookup(n).JobActive?
  }

  lemma ActiveNamesSnoc(ps: seq<Entry>, w: World)
    requires ps != [] && UniqueNames(ps)
    ensures var last := ps[|ps| - 1];
            && last.name !in ActiveNames(ps[..|ps| - 1], w)
            && ActiveNames(ps, w) == ActiveNames(ps[..|ps| - 1], w) +
                 if last.status.Running? && w.lookup(last.name).JobActive? then {last.name} else {}
  {
    NamesWithSnoc(ps, Running);
  }

  /** The counter left by the first pass is the number of active running projects. */
  lemma {:induction false} StillActiveIsCount(ps: seq<Entry>, w: World)
    requires UniqueNames(ps)
    ensures StillActive(ps, w) == |ActiveNames(ps, w)|
  {
    if ps != [] {
      StillActiveIsCount(ps[..|ps| - 1], w);
      ActiveNamesSnoc(ps, w);
      hide ActiveNames;
    } else {
      assert ActiveNames(ps, w) == {};
    }
  }

  // ---------------------------------------------------------------------
  // The store, with the run it has been through
  // ---------------------------------------------------------------------

  /** Neither now nor later in the tick under way can more than `limit` projects run. */
  ghost predicate Sound(s: System, limit: int) {
    Inv(s) && |Exposure(s)| <= limit
  }

  lemma SoundKeepsLimit(s: System, limit: int)
    requires Sound(s, limit)
    ensures Count(s.stored, Running) <= limit && |NamesWith(s.stored, Running)| <= limit
  {
    ExposureCoversRunning(s);
    CountIsCardinality(s.stored, Running);
  }

  /** The states are a run of the machine ending in s, all sound. */
  ghost predicate BoundedRun(states: seq<System>, events: seq<Event>, s: System, limit: int) {
    && Run(states, events)
    && states[|states| - 1] == s
    && forall k :: 0 <= k < |states| ==> Sound(states[k], limit)
  }

  lemma ExtendBoundedRun(states: seq<System>, events: seq<Event>, s: System, limit: int, ev: Event)
    requires BoundedRun(states, events, s, limit) && Enabled(s, ev)
    requires ev.Begin? ==> SafeToBegin(s.stored, ev.snapshot, ev.parallelism, limit)
    ensures BoundedRun(states + [Next(s, ev)], events + [ev], Next(s, ev), limit)
  {
    hide NamesWith, Plan, FirstOf, ScheduledIn;
    assert Sound(s, limit);
    StepKeepsInv(s, ev);
    if !ev.Begin? {
      ExposureNeverGrows(s, ev);
    }
    assert Sound(Next(s, ev), limit);
    hide Enabled, Next, Sound;
    var longer, more := states + [Next(s, ev)], events + [ev];
    forall k | 0 <= k < |more| ensures Enabled(longer[k], more[k]) && longer[k + 1] == Next(longer[k], more[k]) {
      if k < |events| {
        assert longer[k] == states[k] && longer[k + 1] == states[k + 1] && more[k] == events[k];
      }
    }
  }

  class Cluster {
    var stored: seq<Entry>
    ghost var mode: Mode
    ghost var states: seq<System>
    ghost var events: seq<Event>
    ghost const limit: int

    ghost predicate Valid()
      reads this
    {
      BoundedRun(states, events, Now(), limit)
    }

    ghost function Now(): System
      reads this
    {
      System(stored, mode)
    }

    constructor (initial: seq<Entry>, ghost limit: int)
      requires Consistent(initial) && Count(initial, Running) <= limit
      ensures Valid() && stored == initial && this.limit == limit && mode.Idle?
    {
      CountIsCardinality(initial, Running);
      stored, mode := initial, Idle;
      states, events := [System(initial, Idle)], [];
      this.limit := limit;
    }

    lemma StaysWithinLimit()
      requires Valid()
      ensures forall k :: 0 <= k < |states| ==> Count(states[k].stored, Running) <= limit
    {
      forall k | 0 <= k < |states| ensures Count(states[k].stored, Running) <= limit {
        SoundKeepsLimit(states[k], limit);
      }
    }

    /** The current list misses no Running project, so a tick may work from it. */
    lemma CurrentListIsSafe(parallelism: int)
      requires Valid() && parallelism <= limit
      ensures UniqueNames(stored) && SafeToBegin(stored, stored, parallelism, limit)
    {
      assert Sound(Now(), limit);
      SoundKeepsLimit(Now(), limit);
      FreshIsSafe(stored, stored, parallelism, limit);
    }

    /** Take one step of the machine. */
    method Step(ghost ev: Event, written: seq<Entry>)
      requires Valid() && Enabled(Now(), ev)
      requires written == Next(Now(), ev).stored
      requires ev.Begin? ==> SafeToBegin(stored, ev.snapshot, ev.parallelism, limit)
      modifies this
      ensures Valid() && Now() == Next(old(Now()), ev)
      ensures old(states) <= states && events == old(events) + [ev]
    {
      ExtendBoundedRun(states, events, Now(), limit, ev);
      ghost var t := Next(Now(), ev);
      states, events := states + [t], events + [ev];
      stored, mode := written, t.mode;
    }

    method Begin(snapshot: seq<Entry>, parallelism: int)
      requires Valid() && mode.Idle? && UniqueNames(snapshot) && SafeToBegin(stored, snapshot, parallelism, limit)
      modifies this
      ensures Valid() && stored == old(stored) && old(states) <= states
      ensures events == old(events) + [ExecutorMachine.Begin(snapshot, parallelism)]
      ensures FreeingAt(mode, snapshot, 0, Count(snapshot, Running), parallelism)
    {
      Step(ExecutorMachine.Begin(snapshot, parallelism), stored);
    }

    method EndFreeing(snapshot: seq<Entry>, running: int, parallelism: int)
      requires Valid() && FreeingAt(mode, snapshot, |snapshot|, running, parallelism)
      modifies this
      ensures Valid() && stored == old(stored) && old(states) <= states && old(events) <= events
      ensures StartingAt(mode, Sorted(snapshot), 0, running, parallelism)
    {
      Step(EndOfFreeing, stored);
    }

    method EndStarting(order: seq<Entry>, running: int, parallelism: int)
      requires Valid() && StartingAt(mode, order, |order|, running, parallelism)
      modifies this
      ensures Valid() && stored == old(stored) && old(states) <= states && old(events) <= events
      ensures mode.Idle?
    {
      Step(EndOfStarting, stored);
    }

    /** Other actors commit, one after the other. */
    method Interfere(others: seq<OtherActor>)
      requires Valid()
      requires forall i :: 0 <= i < |others| ==> Foreign(others[i].op)
      modifies this
      ensures Valid() && mode == old(mode)
      ensures old(states) <= states
      ensures others == [] ==> stored == old(stored)
      ensures old(events) <= events && |events| == |old(events)| + |others|
      ensures forall k :: 0 <= k < |others| ==> events[|old(events)| + k] == OtherCommit(others[k].op, others[k].now)
    {
      hide BoundedRun, Apply, Foreign;
      for i := 0 to |others|
        invariant Valid() && mode == old(mode)
        invariant old(states) <= states
        invariant old(events) <= events && |events| == |old(events)| + i
        invariant forall k :: 0 <= k < i ==> events[|old(events)| + k] == OtherCommit(others[k].op, others[k].now)
        invariant i == 0 ==> stored == old(stored)
      {
        Step(OtherCommit(others[i].op, others[i].now), Apply(others[i].op, stored, others[i].now));
      }
    }
  }

  class Executor {
    const cluster: Cluster

    constructor (cluster: Cluster)
      ensures this.cluster == cluster
    {
      this.cluster := cluster;
    }

    /** One tick for one RenovateJob: load the object, which may be out of date, then work through it. */
    method ExecuteRenovateJob(loaded: Option<seq<Entry>>, parallelism: int, w: World)
      returns (started: seq<string>, failed: bool)
      requires cluster.Valid() && cluster.mode.Idle?
      requires OnlyForeign(w)
      requires loaded.Some? ==>
        UniqueNames(loaded.value) && SafeToBegin(cluster.stored, loaded.value, parallelism, cluster.limit)
      modifies cluster
      ensures cluster.Valid() && cluster.mode.Idle?
      ensures old(cluster.states) <= cluster.states && old(cluster.events) <= cluster.events
      ensures loaded.Some? ==>
        && |cluster.events| > |old(cluster.events)|
        && cluster.events[|old(cluster.events)|] == ExecutorMachine.Begin(loaded.value, parallelism)
      ensures loaded.None? ==> failed && started == [] && cluster.stored == old(cluster.stored)
      ensures loaded.Some? ==> (failed <==> TickErrs(loaded.value, parallelism, w))
      ensures loaded.Some? ==>
        started == if FirstPassErrs(loaded.value, w) then []
                   else Launched(Plan(loaded.value, parallelism - StillActive(loaded.value, w)), w)
      ensures !failed ==> started == Plan(loaded.value, parallelism - StillActive(loaded.value, w))
      ensures !failed && Quiet(w) && loaded.value == old(cluster.stored) ==>
                cluster.stored == AfterTick(loaded.value, parallelism, w)
    {
      hide *;
      if loaded.None? {
        return [], true;
      }
      started, failed := ReconcileProjects(loaded.value, parallelism, w);
    }

    method ReconcileProjects(snapshot: seq<Entry>, parallelism: int, w: World) returns (started: seq<string>, failed: bool)
      requires cluster.Valid() && cluster.mode.Idle?
      requires UniqueNames(snapshot) && SafeToBegin(cluster.stored, snapshot, parallelism, cluster.limit)
      requires OnlyForeign(w)
      modifies cluster
      ensures cluster.Valid() && cluster.mode.Idle?
      ensures old(cluster.states) <= cluster.states && old(cluster.events) <= cluster.events
      ensures |cluster.events| > |old(cluster.events)|
      ensures cluster.events[|old(cluster.events)|] == ExecutorMachine.Begin(snapshot, parallelism)
      ensures failed <==> TickErrs(snapshot, parallelism, w)
      ensures started == if FirstPassErrs(snapshot, w) then []
                         else Launched(Plan(snapshot, parallelism - StillActive(snapshot, w)), w)
      ensures !failed ==> started == Plan(snapshot, parallelism - StillActive(snapshot, w))
      ensures !failed && Quiet(w) && snapshot == old(cluster.stored) ==>
                && cluster.stored == AfterTick(snapshot, parallelism, w)
                && OutcomesRecorded(snapshot, cluster.stored, started, w)
    {
      hide ScheduledIn, StillActive, Rewrite, Sorted, BoundedRun, Launched, OutcomesRecorded,
        FirstPassErrs, SecondPassErrs, Plan, AfterTick;
      ghost var plan := Plan(snapshot, parallelism - StillActive(snapshot, w));
      ghost var quiet := Quiet(w) && snapshot == cluster.stored;
      started := [];
      var runningProjects;
      runningProjects, failed := FreeSlots(snapshot, parallelism, w);
      if failed {
        return;
      }
      ghost var freed := cluster.stored;
      FreedKeepsNames(snapshot, w);
      started, failed := StartByPriority(snapshot, runningProjects, parallelism, w);
      AllLaunched(plan, w);
      assert !failed ==> started == plan;
      if !failed && quiet {
        assert cluster.stored == Rewrite(freed, AsSet(plan), StartOf(), w.clock);
        TickIsRewrite(snapshot, parallelism, w);
        TickInFull(snapshot, parallelism, w);
      }
    }

    /** Pass 1: take the outcome of every running project whose job has ended. */
    method FreeSlots(snapshot: seq<Entry>, parallelism: int, w: World) returns (runningProjects: int, failed: bool)
      requires cluster.Valid() && cluster.mode.Idle?
      requires UniqueNames(snapshot) && SafeToBegin(cluster.stored, snapshot, parallelism, cluster.limit)
      requires OnlyForeign(w)
      modifies cluster
      ensures cluster.Valid()
      ensures old(cluster.states) <= cluster.states && old(cluster.events) <= cluster.events
      ensures |cluster.events| > |old(cluster.events)|
      ensures cluster.events[|old(cluster.events)|] == ExecutorMachine.Begin(snapshot, parallelism)
      ensures failed ==> cluster.mode.Idle?
      ensures failed <==> FirstPassErrs(snapshot, w)
      ensures !failed ==> runningProjects == StillActive(snapshot, w)
      ensures !failed ==> FreeingAt(cluster.mode, snapshot, |snapshot|, runningProjects, parallelism)
      ensures !failed && Quiet(w) && snapshot == old(cluster.stored) ==> cluster.stored == Freed(snapshot, w)
    {
      hide BoundedRun, Rewrite, EndedNames, FinishErrs;
      failed := false;
      runningProjects := CountRunning(snapshot);
      NothingFreedYet(snapshot, w);
      cluster.Begin(snapshot, parallelism);
      for i := 0 to |snapshot|
        invariant cluster.Valid() && old(cluster.states) <= cluster.states && old(cluster.events) <= cluster.events
        invariant FreeingAt(cluster.mode, snapshot, i, runningProjects, parallelism)
        invariant |cluster.events| > |old(cluster.events)|
        invariant cluster.events[|old(cluster.events)|] == ExecutorMachine.Begin(snapshot, parallelism)
        invariant runningProjects == CountedAfter(snapshot, i, w)
        invariant forall k :: 0 <= k < i ==> !FinishErrs(snapshot[k], w)
        invariant Quiet(w) && snapshot == old(cluster.stored) ==> cluster.stored == FreedUpTo(snapshot, i, w)
      {
        LookupFailureErrs(snapshot[i], w);
        FreedOneMore(snapshot, i, w);
        runningProjects, failed := FreeOne(snapshot, i, runningProjects, parallelism, w);
        if failed {
          return;
        }
      }
      assert snapshot[..|snapshot|] == snapshot;
    }

    /** One project of pass 1. */
    method FreeOne(snapshot: seq<Entry>, i: nat, running: int, parallelism: int, w: World)
      returns (runningProjects: int, failed: bool)
      requires cluster.Valid() && i < |snapshot|
      requires FreeingAt(cluster.mode, snapshot, i, running, parallelism)
      requires OnlyForeign(w)
      modifies cluster
      ensures cluster.Valid()
      ensures old(cluster.states) <= cluster.states && old(cluster.events) <= cluster.events
      ensures failed ==> cluster.mode.Idle?
      ensures !failed ==> FreeingAt(cluster.mode, snapshot, i + 1, runningProjects, parallelism)
      ensures !failed ==> runningProjects == running - if EndsNow(snapshot[i], w) then 1 else 0
      ensures failed <==> FinishErrs(snapshot[i], w)
      ensures !failed && w.others(i) == [] ==> cluster.stored == FreedBy(old(cluster.stored), snapshot[i], w)
      ensures var e, l, at := snapshot[i], w.lookup(snapshot[i].name), |old(cluster.events)| + |w.others(i)|;
              && old(cluster.events) <= cluster.events && |cluster.events| > at
              && cluster.events[at] ==
                 if !e.status.Running? || l.JobActive? then Skip
                 else if l.LookupFails? then Abort
                 else if l.JobMissing? then Finish(Failed, "", None, w.clock(e.name), w.call(e.name))
                 else if l.completed then Finish(Completed, l.duration, l.result, w.clock(e.name), w.call(e.name))
                 else Finish(Failed, l.duration, l.result, w.clock(e.name), w.call(e.name))
      ensures failed <==>
        && snapshot[i].status.Running?
        && match w.lookup(snapshot[i].name)
           case LookupFails => true
           case JobActive => false
           case JobMissing => !w.call(snapshot[i].name).Succeeds?
           case JobEnded(completed, _, _, deletionFails) =>
             !w.call(snapshot[i].name).Succeeds? || (completed && deletionFails)
    {
      hide BoundedRun;
      runningProjects, failed := running, false;
      var project := snapshot[i];
      cluster.Interfere(w.others(i));
      if project.status != Running {
        cluster.Step(Skip, cluster.stored);
        return;
      }
      var job := w.lookup(project.name);
      if job.LookupFails? {
        cluster.Step(Abort, cluster.stored);
        return runningProjects, true;
      }
      if job.JobActive? {
        cluster.Step(Skip, cluster.stored);
        return;
      }
      var u, now, call := Ending(job), w.clock(project.name), w.call(project.name);
      cluster.Step(Finish(u.status, u.duration.value, u.result, now, call),
                   Commit(cluster.stored, project.name, u, now, call));
      runningProjects := runningProjects - 1;
      if !call.Succeeds? {
        return runningProjects, true;
      }
      if job.JobEnded? && job.completed && job.deletionFails {
        cluster.Step(Abort, cluster.stored);
        failed := true;
      }
    }

    /** Pass 2: sort the snapshot, then start its scheduled projects. */
    method StartByPriority(snapshot: seq<Entry>, runningProjects: int, parallelism: int, w: World)
      returns (started: seq<string>, failed: bool)
      requires cluster.Valid() && UniqueNames(snapshot)
      requires FreeingAt(cluster.mode, snapshot, |snapshot|, runningProjects, parallelism)
      requires OnlyForeign(w)
      modifies cluster
      ensures cluster.Valid() && cluster.mode.Idle?
      ensures old(cluster.states) <= cluster.states && old(cluster.events) <= cluster.events
      ensures started == Launched(Plan(snapshot, parallelism - runningProjects), w)
      ensures failed <==> SecondPassErrs(Plan(snapshot, parallelism - runningProjects), w)
      ensures !failed && Quiet(w) && SameNames(snapshot, old(cluster.stored)) ==>
        cluster.stored == Rewrite(old(cluster.stored), AsSet(started), StartOf(), w.clock)
    {
      var order := SortByPriority(snapshot);
      SortedKeepsUniqueNames(snapshot);
      cluster.EndFreeing(snapshot, runningProjects, parallelism);
      if SameNames(snapshot, cluster.stored) {
        SortedStaysListed(snapshot, cluster.stored);
      }
      started, failed := StartScheduled(order, runningProjects, parallelism, |snapshot|, w);
    }

    /** Start scheduled projects in the given order while slots are free. */
    method StartScheduled(order: seq<Entry>, alreadyRunning: int, parallelism: int, elapsed: nat, w: World)
      returns (started: seq<string>, failed: bool)
      requires cluster.Valid()
      requires StartingAt(cluster.mode, order, 0, alreadyRunning, parallelism)
      requires OnlyForeign(w) && UniqueNames(order)
      modifies cluster
      ensures cluster.Valid() && cluster.mode.Idle?
      ensures old(cluster.states) <= cluster.states && old(cluster.events) <= cluster.events
      ensures started == Launched(FirstOf(ScheduledIn(order), parallelism - alreadyRunning), w)
      ensures failed <==> SecondPassErrs(FirstOf(ScheduledIn(order), parallelism - alreadyRunning), w)
      ensures !failed && Quiet(w) && AllListed(order, old(cluster.stored)) ==>
        cluster.stored == Rewrite(old(cluster.stored), AsSet(started), StartOf(), w.clock)
    {
      hide BoundedRun, Rewrite, ScheduledIn, StartErrs, EndsEarly, Launched, FirstOf, SecondPassErrs;
      started, failed := [], false;
      var runningProjects := alreadyRunning;
      ghost var free := parallelism - alreadyRunning;
      ghost var plan := FirstOf(ScheduledIn(order), free);
      ghost var base := cluster.stored;
      ghost var calm := Quiet(w) && AllListed(order, base);
      NothingStartedYet(base, order, free, w);
      var i := 0;
      while i < |order| && !failed
        invariant i <= |order|
        invariant cluster.Valid() && old(cluster.states) <= cluster.states && old(cluster.events) <= cluster.events
        invariant if failed then cluster.mode.Idle? else StartingAt(cluster.mode, order, i, runningProjects, parallelism)
        invariant if failed then EndsEarly(started, plan, w) else started == StartedUpTo(order, i, free)
        invariant !failed ==> forall k :: 0 <= k < |started| ==> !StartErrs(started[k], w)
        invariant runningProjects == alreadyRunning + |started|
        invariant !failed && calm ==> cluster.stored == Rewrite(base, AsSet(started), StartOf(), w.clock)
      {
        StartedOneMore(order, i, free);
        if calm {
          StartedRewrite(base, order, i, free, w);
        }
        var created;
        created, failed := StartOne(order, i, runningProjects, parallelism, elapsed, w);
        StartedUpToPrefix(order, i + 1, free);
        if failed {
          StopsAt(started, order[i].name, plan, w);
        }
        if created {
          started := started + [order[i].name];
          runningProjects := runningProjects + 1;
        }
        i := i + 1;
      }
      if !failed {
        StartedAtEnd(order, free);
        cluster.EndStarting(order, runningProjects, parallelism);
      }
      WhatWasLaunched(started, plan, w, failed);
    }

    /** One project of pass 2; `created` tells whether its job was created. */
    method StartOne(order: seq<Entry>, i: nat, running: int, parallelism: int, elapsed: nat, w: World)
      returns (created: bool, failed: bool)
      requires cluster.Valid() && i < |order|
      requires StartingAt(cluster.mode, order, i, running, parallelism)
      requires OnlyForeign(w)
      modifies cluster
      ensures cluster.Valid()
      ensures old(cluster.states) <= cluster.states && old(cluster.events) <= cluster.events
      ensures failed ==> cluster.mode.Idle?
      ensures created ==> StartsNow(order[i], running, parallelism)
      ensures !failed ==> created == StartsNow(order[i], running, parallelism)
      ensures failed <==> StartsNow(order[i], running, parallelism) && StartErrs(order[i].name, w)
      ensures failed ==> created == !w.creationFails(order[i].name)
      ensures failed <==>
        && order[i].status.Scheduled? && running < parallelism
        && (w.creationFails(order[i].name) || !w.call(order[i].name).Succeeds?)
      ensures var name, at := order[i].name, |old(cluster.events)| + |w.others(elapsed + i)|;
              && old(cluster.events) <= cluster.events && |cluster.events| > at
              && cluster.events[at] ==
                 if !order[i].status.Scheduled? || running >= parallelism then Skip
                 else if w.creationFails(name) then Abort
                 else Start(w.clock(name), w.call(name))
      ensures !failed ==> StartingAt(cluster.mode, order, i + 1, running + if created then 1 else 0, parallelism)
      ensures !failed && w.others(elapsed + i) == [] ==>
        cluster.stored == if created then StartedBy(old(cluster.stored), order[i], w) else old(cluster.stored)
    {
      hide BoundedRun;
      created, failed := false, false;
      var project := order[i];
      cluster.Interfere(w.others(elapsed + i));
      if project.status != Scheduled {
        cluster.Step(Skip, cluster.stored);
        return;
      }
      if running < parallelism {
        if w.creationFails(project.name) {
          cluster.Step(Abort, cluster.stored);
          return false, true;
        }
        created := true;
        var now, call := w.clock(project.name), w.call(project.name);
        cluster.Step(Start(now, call), Commit(cluster.stored, project.name, STARTED, now, call));
        failed := !call.Succeeds?;
      } else {
        cluster.Step(Skip, cluster.stored);
      }
    }
  }

  method CountRunning(ps: seq<Entry>) returns (n: int)
    ensures n == Count(ps, Running)
  {
    n := 0;
    for i := 0 to |ps|
      invariant n == Count(ps[..i], Running)
    {
      Prefixes(ps, i);
      if ps[i].status == Running {
        n := n + 1;
      }
    }
    assert ps[..|ps|] == ps;
  }

  ghost predicate FreeingAt(m: Mode, snapshot: seq<Entry>, next: nat, running: int, parallelism: int) {
    m.Freeing? && m == Freeing(snapshot, next, running, m.counted, parallelism)
  }

  ghost predicate StartingAt(m: Mode, order: seq<Entry>, next: nat, running: int, parallelism: int) {
    m.Starting? && m == Starting(order, next, running, m.counted, parallelism)
  }

  predicate SameNames(ps: seq<Entry>, qs: seq<Entry>) {
    |ps| == |qs| && forall i :: 0 <= i < |ps| ==> ps[i].name == qs[i].name
  }

  ghost predicate AllListed(order: seq<Entry>, ps: seq<Entry>) {
    UniqueNames(ps) && forall i :: 0 <= i < |order| ==> Position(ps, order[i].name) < |ps|
  }

  // ---------------------------------------------------------------------
  // Small facts the two passes use
  // ---------------------------------------------------------------------

  lemma Prefixes<T>(s: seq<T>, i: nat)
    requires i < |s|
    ensures |s[..i + 1]| == i + 1 && s[..i + 1][..i] == s[..i] && s[..i + 1][i] == s[i]
  {
  }

  predicate EndsNow(e: Entry, w: World) { e.status.Running? && Ended(w.lookup(e.name)) }

  predicate StartsNow(e: Entry, running: int, parallelism: int) { e.status.Scheduled? && running < parallelism }

  function FreedBy(ps: seq<Entry>, e: Entry, w: World): seq<Entry> {
    if EndsNow(e, w) then Apply(UpdateOne(e.name, Ending(w.lookup(e.name))), ps, w.clock(e.name)) else ps
  }

  function StartedBy(ps: seq<Entry>, e: Entry, w: World): seq<Entry> {
    Apply(UpdateOne(e.name, STARTED), ps, w.clock(e.name))
  }

  /** The executor's counter once the first i projects have been looked at. */
  function CountedAfter(snapshot: seq<Entry>, i: nat, w: World): int
    requires i <= |snapshot|
  {
    Count(snapshot, Running) - Count(snapshot[..i], Running) + StillActive(snapshot[..i], w)
  }

  ghost function FreedUpTo(snapshot: seq<Entry>, i: nat, w: World): seq<Entry>
    requires i <= |snapshot|
  {
    Rewrite(snapshot, EndedNames(snapshot[..i], w), EndingOf(w), w.clock)
  }

  lemma NothingFreedYet(snapshot: seq<Entry>, w: World)
    ensures FreedUpTo(snapshot, 0, w) == snapshot
    ensures CountedAfter(snapshot, 0, w) == Count(snapshot, Running)
  {
  }

  lemma FreedOneMore(snapshot: seq<Entry>, i: nat, w: World)
    requires UniqueNames(snapshot) && i < |snapshot|
    ensures !(snapshot[i].status.Running? && w.lookup(snapshot[i].name).LookupFails?) ==>
      CountedAfter(snapshot, i + 1, w) == CountedAfter(snapshot, i, w) - if EndsNow(snapshot[i], w) then 1 else 0
    ensures FreedUpTo(snapshot, i + 1, w) == FreedBy(FreedUpTo(snapshot, i, w), snapshot[i], w)
  {
    Prefixes(snapshot, i);
    EndedNamesSnoc(snapshot[..i + 1], w);
    if EndsNow(snapshot[i], w) {
      NotYetEnded(snapshot, i, w);
      RewriteOneMore(snapshot, EndedNames(snapshot[..i], w), EndingOf(w), w.clock, i);
    }
  }

  lemma EndedNamesSnoc(ps: seq<Entry>, w: World)
    requires ps != []
    ensures var last := ps[|ps| - 1];
            EndedNames(ps, w) == EndedNames(ps[..|ps| - 1], w) + if EndsNow(last, w) then {last.name} else {}
  {
  }

  lemma NotYetEnded(ps: seq<Entry>, i: nat, w: World)
    requires UniqueNames(ps) && i < |ps|
    ensures ps[i].name !in EndedNames(ps[..i], w)
  {
  }

  function StartedUpTo(order: seq<Entry>, i: nat, free: int): seq<string>
    requires i <= |order|
  {
    FirstOf(ScheduledIn(order[..i]), free)
  }

  lemma NothingStartedYet(base: seq<Entry>, order: seq<Entry>, free: int, w: World)
    ensures StartedUpTo(order, 0, free) == []
    ensures Rewrite(base, AsSet([]), StartOf(), w.clock) == base
  {
  }

  lemma StartedOneMore(order: seq<Entry>, i: nat, free: int)
    requires i < |order|
    ensures var before := StartedUpTo(order, i, free);
            StartedUpTo(order, i + 1, free) ==
              if StartsNow(order[i], |before|, free) then before + [order[i].name] else before
  {
    Prefixes(order, i);
  }

  lemma StartedAtEnd(order: seq<Entry>, free: int)
    ensures StartedUpTo(order, |order|, free) == FirstOf(ScheduledIn(order), free)
  {
    assert order[..|order|] == order;
  }

  lemma StartedUpToPrefix(order: seq<Entry>, i: nat, free: int)
    requires i <= |order|
    ensures Opens(StartedUpTo(order, i, free), FirstOf(ScheduledIn(order), free))
  {
    ScheduledInPrefix(order, i);
  }

  lemma StartedRewrite(base: seq<Entry>, order: seq<Entry>, i: nat, free: int, w: World)
    requires UniqueNames(order) && AllListed(order, base) && i < |order|
    ensures var names := StartedUpTo(order, i, free);
            Rewrite(base, AsSet(names + [order[i].name]), StartOf(), w.clock)
              == StartedBy(Rewrite(base, AsSet(names), StartOf(), w.clock), order[i], w)
  {
    var names := StartedUpTo(order, i, free);
    AsSetSnoc(names, order[i].name);
    if order[i].name in AsSet(names) {
      ScheduledInNames(order[..i], order[i].name);
      var k :| 0 <= k < i && order[..i][k].name == order[i].name;
    }
    RewriteOneMore(base, AsSet(names), StartOf(), w.clock, Position(base, order[i].name));
  }

  lemma {:induction false} ScheduledInPrefix(es: seq<Entry>, i: nat)
    requires i <= |es|
    ensures ScheduledIn(es[..i]) <= ScheduledIn(es)
  {
    if i < |es| {
      var front := es[..|es| - 1];
      assert front[..i] == es[..i];
      ScheduledInPrefix(front, i);
    } else {
      assert es[..i] == es;
    }
  }

  lemma FreedKeepsNames(ps: seq<Entry>, w: World)
    ensures SameNames(ps, Freed(ps, w))
  {
  }

  lemma SortedStaysListed(snapshot: seq<Entry>, ps: seq<Entry>)
    requires UniqueNames(snapshot)
    requires SameNames(snapshot, ps)
    ensures AllListed(Sorted(snapshot), ps)
  {
    forall i | 0 <= i < |Sorted(snapshot)| ensures Position(ps, Sorted(snapshot)[i].name) < |ps| {
      SortedMembers(snapshot, Sorted(snapshot)[i]);
      var k :| 0 <= k < |snapshot| && snapshot[k] == Sorted(snapshot)[i];
      assert ps[k].name == Sorted(snapshot)[i].name;
    }
  }
}
