/**
 The executor tick as a state machine over the stored project list, with other
 actors' commits possible between any two of its steps.
 */
module ExecutorMachine {
  import opened Options
  import opened Sequences
  import opened ProjectStatuses
  import opened ProjectLists
  import opened PrioritySort
  import opened StartQueue

  /** Where the executor stands. `running` is its local counter; `counted`
      names the projects that counter stands for. */
  datatype Mode =
    | Idle
    | Freeing(snapshot: seq<Entry>, next: nat, running: int, counted: set<string>, parallelism: int)
    | Starting(order: seq<Entry>, next: nat, running: int, counted: set<string>, parallelism: int)

  datatype System = System(stored: seq<Entry>, mode: Mode)

  /** How a manager call ends. The write can commit although the call
      reports an error: the reload after it may fail. */
  datatype Call = Succeeds | CommitsButFails | FailsUncommitted

  datatype Event =
    | OtherCommit(op: Op, now: int)
    | Begin(snapshot: seq<Entry>, parallelism: int)
    | Skip
    | Finish(outcome: Status, duration: string, result: Option<string>, now: int, call: Call)
    | EndOfFreeing
    | Start(now: int, call: Call)
    | EndOfStarting
    | Abort

  function Finished(outcome: Status, duration: string, result: Option<string>): StatusUpdate {
    StatusUpdate(outcome, 0, result, Some(duration))
  }

  const STARTED := StatusUpdate(Running, 0, None, None)

  function Commit(stored: seq<Entry>, project: string, u: StatusUpdate, now: int, call: Call): seq<Entry> {
    if call.FailsUncommitted? then stored else Apply(UpdateOne(project, u), stored, now)
  }

  ghost predicate Enabled(s: System, ev: Event) {
    match (ev, s.mode)
    case (OtherCommit(op, _), _) => Foreign(op)
    case (Begin(snapshot, _), Idle) => UniqueNames(snapshot)
    case (Skip, Freeing(snapshot, next, _, _, _)) => next < |snapshot|
    case (Skip, Starting(order, next, running, _, parallelism)) =>
      next < |order| && (!order[next].status.Scheduled? || running >= parallelism)
    case (Finish(outcome, _, _, _, _), Freeing(snapshot, next, _, _, _)) =>
      next < |snapshot| && snapshot[next].status.Running? && (outcome.Completed? || outcome.Failed?)
    case (EndOfFreeing, Freeing(snapshot, next, _, _, _)) => next == |snapshot|
    case (Start(_, _), Starting(order, next, running, _, parallelism)) =>
      next < |order| && order[next].status.Scheduled? && running < parallelism
    case (EndOfStarting, Starting(order, next, _, _, _)) => next == |order|
    case (Abort, Freeing(_, _, _, _, _)) => true
    case (Abort, Starting(_, _, _, _, _)) => true
    case _ => false
  }

  ghost function Next(s: System, ev: Event): System
    requires Enabled(s, ev)
  {
    match ev
    case OtherCommit(op, now) => s.(stored := Apply(op, s.stored, now))
    case Begin(snapshot, parallelism) =>
      s.(mode := Freeing(snapshot, 0, Count(snapshot, Running), NamesWith(snapshot, Running), parallelism))
    case Skip => s.(mode := s.mode.(next := s.mode.next + 1))
    case Finish(outcome, duration, result, now, call) =>
      var Freeing(snapshot, next, running, counted, parallelism) := s.mode;
      var project := snapshot[next].name;
      System(
        Commit(s.stored, project, Finished(outcome, duration, result), now, call),
        if call.Succeeds? then Freeing(snapshot, next + 1, running - 1, counted - {project}, parallelism) else Idle)
    case EndOfFreeing =>
      s.(mode := Starting(Sorted(s.mode.snapshot), 0, s.mode.running, s.mode.counted, s.mode.parallelism))
    case Start(now, call) =>
      var Starting(order, next, running, counted, parallelism) := s.mode;
      var project := order[next].name;
      System(
        Commit(s.stored, project, STARTED, now, call),
        if call.Succeeds? then Starting(order, next + 1, running + 1, counted + {project}, parallelism) else Idle)
    case EndOfStarting => s.(mode := Idle)
    case Abort => s.(mode := Idle)
  }

  // ---------------------------------------------------------------------
  // The invariant
  // ---------------------------------------------------------------------

  /** The counter counts what it stands for, and no project still to be
      started is among that. Nothing here depends on how old the snapshot is. */
  ghost predicate Inv(s: System) {
    && Consistent(s.stored)
    && match s.mode
       case Idle => true
       case Freeing(snapshot, next, running, counted, _) =>
         && UniqueNames(snapshot) && next <= |snapshot|
         && running == |counted| && counted <= NamesWith(snapshot, Running)
         && (forall i :: next <= i < |snapshot| && snapshot[i].status.Running? ==> snapshot[i].name in counted)
       case Starting(order, next, running, counted, _) =>
         && UniqueNames(order) && next <= |order|
         && running == |counted|
         && (forall i :: next <= i < |order| && order[i].status.Scheduled? ==> order[i].name !in counted)
  }

  /** Every project stored as Running is one the counter stands for. */
  ghost predicate Covered(s: System) {
    !s.mode.Idle? ==> NamesWith(s.stored, Running) <= s.mode.counted
  }

  /** The projects stored as Running if the tick under way goes on as
      unfavourably as it can. */
  ghost function Exposure(s: System): set<string> {
    var stored := NamesWith(s.stored, Running);
    match s.mode
    case Idle => stored
    case Freeing(snapshot, _, _, counted, parallelism) =>
      stored + AsSet(Plan(snapshot, parallelism - |counted * stored|))
    case Starting(order, next, running, _, parallelism) =>
      stored + AsSet(FirstOf(ScheduledIn(if next <= |order| then order[next..] else []), parallelism - running))
  }

  /** The parallelism the executor goes by in s; outside a tick it starts nothing. */
  function Limit(s: System): int {
    match s.mode
    case Idle => 0
    case Freeing(_, _, _, _, p) => p
    case Starting(_, _, _, _, p) => p
  }

  lemma FinishedIsNotRunning(ps: seq<Entry>, project: string, u: StatusUpdate, now: int)
    requires u.status.Completed? || u.status.Failed?
    ensures !Written(ps, project, u, now).status.Running?
  {
  }

  lemma NotBothStatuses(ps: seq<Entry>, k: nat, st: Status)
    requires UniqueNames(ps) && k < |ps|
    ensures ps[k].name in NamesWith(ps, st) <==> ps[k].status == st
  {
  }

  /** Giving up some names for at most as many others. */
  lemma Trade(stored: set<string>, rest: set<string>, gone: set<string>, few: set<string>, many: set<string>)
    requires rest + gone <= stored && gone !! rest + few
    requires few <= many && |many - few| <= |gone|
    ensures |rest + many| <= |stored + few|
  {
    var base := stored + few;
    assert base * gone == gone;
    assert rest + many <= (base - gone) + (many - few);
    SubsetCard(rest + many, (base - gone) + (many - few));
  }

  /** Projects that stop running free no more slots than there are of them,
      so what may run in the end does not get more. */
  lemma FreedSlotsAreCovered(stored: set<string>, rest: set<string>, counted: set<string>, queue: seq<string>, p: int)
    requires rest <= stored && AsSet(queue) !! counted
    ensures |rest + AsSet(FirstOf(queue, p - |counted * rest|))| <= |stored + AsSet(FirstOf(queue, p - |counted * stored|))|
  {
    hide FirstOf, AsSet;
    var gone := counted * stored - counted * rest;
    assert (counted * stored) * (counted * rest) == counted * rest;
    assert |gone| == |counted * stored| - |counted * rest|;
    FirstOfGrows(queue, p - |counted * stored|, |gone|);
    FirstOfSubset(queue, p - |counted * stored|);
    Trade(stored, rest, gone, AsSet(FirstOf(queue, p - |counted * stored|)), AsSet(FirstOf(queue, p - |counted * rest|)));
  }

  lemma FinishKeepsInv(s: System, ev: Event)
    requires Inv(s) && Enabled(s, ev) && ev.Finish?
    ensures Inv(Next(s, ev))
    ensures NamesWith(Next(s, ev).stored, Running) <= NamesWith(s.stored, Running)
    ensures ev.call.Succeeds? ==> s.mode.snapshot[s.mode.next].name !in NamesWith(Next(s, ev).stored, Running)
    ensures Covered(s) ==> Covered(Next(s, ev))
  {
    hide Apply, NamesWith, Written, Transition;
    var project := s.mode.snapshot[s.mode.next].name;
    var u := Finished(ev.outcome, ev.duration, ev.result);
    UpdateOneNames(s.stored, project, u, ev.now, Running);
    FinishedIsNotRunning(s.stored, project, u, ev.now);
    OperationsKeepConsistency(UpdateOne(project, u), s.stored, ev.now);
  }

  /** Within the first pass, losing Running entries does not raise the exposure. */
  lemma FreeingLosesRunning(snapshot: seq<Entry>, counted: set<string>, p: int, stored: set<string>, rest: set<string>)
    requires UniqueNames(snapshot) && counted <= NamesWith(snapshot, Running) && rest <= stored
    ensures |rest + AsSet(Plan(snapshot, p - |counted * rest|))| <= |stored + AsSet(Plan(snapshot, p - |counted * stored|))|
  {
    var queue := ScheduledIn(Sorted(snapshot));
    PlannedAreScheduled(snapshot, |queue|);
    assert FirstOf(queue, |queue|) == queue;
    hide NamesWith, ScheduledIn, FirstOf, AsSet, Sorted;
    FreedSlotsAreCovered(stored, rest, counted, queue, p);
  }

  lemma QueueIsNotCounted(snapshot: seq<Entry>, counted: set<string>)
    requires UniqueNames(snapshot) && counted <= NamesWith(snapshot, Running)
    ensures var order := Sorted(snapshot);
            UniqueNames(order) && forall i :: 0 <= i < |order| && order[i].status.Scheduled? ==> order[i].name !in counted
  {
    var order := Sorted(snapshot);
    SortedKeepsUniqueNames(snapshot);
    forall i | 0 <= i < |order| && order[i].status.Scheduled? ensures order[i].name !in counted {
      SortedMembers(snapshot, order[i]);
      var k :| 0 <= k < |snapshot| && snapshot[k] == order[i];
      NotBothStatuses(snapshot, k, Running);
    }
  }

  lemma EndOfFreeingKeepsInv(s: System, ev: Event)
    requires Inv(s) && Enabled(s, ev) && ev.EndOfFreeing?
    ensures Inv(Next(s, ev))
  {
    QueueIsNotCounted(s.mode.snapshot, s.mode.counted);
    hide Sorted, NamesWith, Consistent;
  }

  lemma EndOfFreeingExposure(s: System, ev: Event)
    requires Inv(s) && Enabled(s, ev) && ev.EndOfFreeing?
    ensures |Exposure(Next(s, ev))| <= |Exposure(s)|
  {
    hide Sorted, NamesWith, ScheduledIn, Consistent, FirstOf, AsSet;
    var Freeing(snapshot, _, running, counted, parallelism) := s.mode;
    var order, stored := Sorted(snapshot), NamesWith(s.stored, Running);
    SubsetCard(counted * stored, counted);
    FirstOfGrows(ScheduledIn(order), parallelism - running, running - |counted * stored|);
    assert order[0..] == order;
    SubsetCard(Exposure(Next(s, ev)), Exposure(s));
  }

  lemma StartKeepsInv(s: System, ev: Event)
    requires Inv(s) && Enabled(s, ev) && ev.Start?
    ensures Inv(Next(s, ev))
    ensures NamesWith(Next(s, ev).stored, Running) <= NamesWith(s.stored, Running) + {s.mode.order[s.mode.next].name}
    ensures Covered(s) ==> Covered(Next(s, ev)) && |NamesWith(Next(s, ev).stored, Running)| <= s.mode.running + 1
  {
    hide Apply, NamesWith, Written, Transition;
    var Starting(order, next, _, counted, _) := s.mode;
    var project := order[next].name;
    UpdateOneNames(s.stored, project, STARTED, ev.now, Running);
    OperationsKeepConsistency(UpdateOne(project, STARTED), s.stored, ev.now);
    if Covered(s) {
      SubsetCard(NamesWith(Next(s, ev).stored, Running), counted + {project});
    }
  }

  lemma QueueHead(order: seq<Entry>, next: nat)
    requires next < |order|
    ensures var rest := ScheduledIn(order[next + 1..]);
            ScheduledIn(order[next..]) == if order[next].status.Scheduled? then [order[next].name] + rest else rest
  {
    ScheduledInCons(order[next..]);
    assert order[next..][1..] == order[next + 1..];
  }

  lemma OtherKeepsInv(s: System, ev: Event)
    requires Inv(s) && Enabled(s, ev) && ev.OtherCommit?
    ensures Inv(Next(s, ev))
    ensures Covered(s) ==> Covered(Next(s, ev))
  {
    OperationsKeepConsistency(ev.op, s.stored, ev.now);
    ForeignNeverAddsRunning(ev.op, s.stored, ev.now);
    hide Apply, NamesWith, Consistent, Foreign;
  }

  /** As the first pass goes on, or the tick does not, nothing is exposed that was not. */
  lemma LosingRunning(s: System, t: System)
    requires Inv(s) && NamesWith(t.stored, Running) <= NamesWith(s.stored, Running)
    requires t.mode == s.mode || t.mode.Idle? || SlotsKept(s, t)
    ensures |Exposure(t)| <= |Exposure(s)|
  {
    hide NamesWith, FirstOf, ScheduledIn, Consistent;
    if t.mode.Freeing? {
      var Freeing(snapshot, _, _, counted, parallelism) := s.mode;
      FreeingLosesRunning(snapshot, counted, parallelism, NamesWith(s.stored, Running), NamesWith(t.stored, Running));
    } else {
      SubsetCard(Exposure(t), Exposure(s));
    }
  }

  /** Only projects that do not run have been taken off the counter. */
  ghost predicate SlotsKept(s: System, t: System) {
    && s.mode.Freeing? && t.mode.Freeing?
    && t.mode.snapshot == s.mode.snapshot && t.mode.parallelism == s.mode.parallelism
    && t.mode.counted * NamesWith(t.stored, Running) == s.mode.counted * NamesWith(t.stored, Running)
  }

  /** A start exposes nothing new: its project was first in the queue. */
  lemma StartingOne(s: System, t: System)
    requires s.mode.Starting? && s.mode.next < |s.mode.order| && s.mode.order[s.mode.next].status.Scheduled?
    requires s.mode.running < s.mode.parallelism
    requires NamesWith(t.stored, Running) <= NamesWith(s.stored, Running) + {s.mode.order[s.mode.next].name}
    requires t.mode.Idle? ||
      (t.mode.Starting? &&
       t.mode == s.mode.(next := s.mode.next + 1, running := s.mode.running + 1, counted := t.mode.counted))
    ensures |Exposure(t)| <= |Exposure(s)|
  {
    hide NamesWith, FirstOf, ScheduledIn, AsSet;
    var Starting(order, next, running, _, parallelism) := s.mode;
    QueueHead(order, next);
    FirstOfCons(order[next].name, ScheduledIn(order[next + 1..]), parallelism - running);
    SubsetCard(Exposure(t), Exposure(s));
  }

  lemma SkipKeepsInv(s: System, ev: Event)
    requires Inv(s) && Enabled(s, ev) && ev.Skip?
    ensures Inv(Next(s, ev))
    ensures Exposure(Next(s, ev)) == Exposure(s)
  {
    hide NamesWith, Plan, ScheduledIn, Consistent;
    if s.mode.Starting? {
      QueueHead(s.mode.order, s.mode.next);
    }
  }

  lemma StepKeepsInv(s: System, ev: Event)
    requires Inv(s) && Enabled(s, ev)
    ensures Inv(Next(s, ev))
  {
    hide NamesWith, Apply, ScheduledIn, Plan, FirstOf;
    match ev
    case OtherCommit(_, _) => OtherKeepsInv(s, ev);
    case Begin(snapshot, _) =>
      CountIsCardinality(snapshot, Running);
      forall i | 0 <= i < |snapshot| && snapshot[i].status.Running?
        ensures snapshot[i].name in NamesWith(snapshot, Running)
      {
        NotBothStatuses(snapshot, i, Running);
      }
    case Skip => SkipKeepsInv(s, ev);
    case Finish(_, _, _, _, _) => FinishKeepsInv(s, ev);
    case EndOfFreeing => EndOfFreeingKeepsInv(s, ev);
    case Start(_, _) => StartKeepsInv(s, ev);
    case _ =>
  }

  /** Running projects in the store stay within the projects the local
      counter stands for, unless a tick begins on a snapshot that misses one. */
  lemma StepKeepsCovered(s: System, ev: Event)
    requires Inv(s) && Covered(s) && Enabled(s, ev)
    requires ev.Begin? ==> FreshEnough(ev.snapshot, s.stored)
    ensures Covered(Next(s, ev))
  {
    hide NamesWith, Apply, ScheduledIn, Plan, FirstOf;
    match ev
    case OtherCommit(_, _) => OtherKeepsInv(s, ev);
    case Finish(_, _, _, _, _) => FinishKeepsInv(s, ev);
    case Start(_, _) => StartKeepsInv(s, ev);
    case _ =>
  }

  lemma FinishExposure(s: System, ev: Event)
    requires Inv(s) && Enabled(s, ev) && ev.Finish?
    ensures |Exposure(Next(s, ev))| <= |Exposure(s)|
  {
    FinishKeepsInv(s, ev);
    var t := Next(s, ev);
    hide NamesWith, Exposure, Apply, Consistent;
    LosingRunning(s, t);
  }

  lemma StartExposure(s: System, ev: Event)
    requires Inv(s) && Enabled(s, ev) && ev.Start?
    ensures |Exposure(Next(s, ev))| <= |Exposure(s)|
  {
    StartKeepsInv(s, ev);
    var t := Next(s, ev);
    hide NamesWith, Exposure, Apply, Consistent;
    StartingOne(s, t);
  }

  /** Once a tick has begun, no step of it or of anyone else raises its exposure. */
  lemma ExposureNeverGrows(s: System, ev: Event)
    requires Inv(s) && Enabled(s, ev) && !ev.Begin?
    ensures |Exposure(Next(s, ev))| <= |Exposure(s)|
  {
    hide NamesWith, Apply, ScheduledIn, Plan, FirstOf;
    match ev
    case OtherCommit(op, now) =>
      ForeignNeverAddsRunning(op, s.stored, now);
      LosingRunning(s, Next(s, ev));
    case Skip => SkipKeepsInv(s, ev);
    case Finish(_, _, _, _, _) => FinishExposure(s, ev);
    case EndOfFreeing => EndOfFreeingExposure(s, ev);
    case Start(_, _) => StartExposure(s, ev);
    case Begin(_, _) =>
    case EndOfStarting => SubsetCard(Exposure(Next(s, ev)), Exposure(s));
    case Abort => SubsetCard(Exposure(Next(s, ev)), Exposure(s));
  }

  lemma ExposureCoversRunning(s: System)
    requires Inv(s)
    ensures Count(s.stored, Running) <= |Exposure(s)|
  {
    hide NamesWith, Plan, FirstOf, ScheduledIn;
    CountIsCardinality(s.stored, Running);
    SubsetCard(NamesWith(s.stored, Running), Exposure(s));
  }

  // ---------------------------------------------------------------------
  // Beginning a tick
  // ---------------------------------------------------------------------

  /** A snapshot may lag behind the store as long as it misses no Running project. */
  ghost predicate FreshEnough(snapshot: seq<Entry>, stored: seq<Entry>) {
    NamesWith(stored, Running) <= NamesWith(snapshot, Running)
  }

  /** What runs, and what the snapshot would have started beside it, fits into p. */
  ghost predicate SafeToBegin(stored: seq<Entry>, snapshot: seq<Entry>, parallelism: int, p: int) {
    var running := NamesWith(stored, Running);
    |running + AsSet(Plan(snapshot, parallelism - |NamesWith(snapshot, Running) * running|))| <= p
  }

  lemma CoveredExposure(s: System)
    requires Inv(s) && Covered(s)
    ensures |Exposure(s)| <= Max(Count(s.stored, Running), Limit(s))
  {
    hide NamesWith, ScheduledIn, Sorted;
    CountIsCardinality(s.stored, Running);
    var stored := NamesWith(s.stored, Running);
    match s.mode
    case Idle =>
    case Freeing(snapshot, _, _, counted, parallelism) =>
      assert counted * stored == stored;
      AsSetBound(Plan(snapshot, parallelism - |stored|));
    case Starting(order, next, running, counted, parallelism) =>
      SubsetCard(stored, counted);
      AsSetBound(FirstOf(ScheduledIn(order[next..]), parallelism - running));
  }

  lemma FreshIsSafe(stored: seq<Entry>, snapshot: seq<Entry>, parallelism: int, p: int)
    requires FreshEnough(snapshot, stored)
    requires |NamesWith(stored, Running)| <= p && parallelism <= p
    ensures SafeToBegin(stored, snapshot, parallelism, p)
  {
    hide NamesWith, ScheduledIn, Sorted;
    var running := NamesWith(stored, Running);
    assert NamesWith(snapshot, Running) * running == running;
    AsSetBound(Plan(snapshot, parallelism - |running|));
  }

  /** No step raises the number of stored Running entries above both what it
      was and the parallelism of the tick under way. */
  lemma StepRespectsLimit(s: System, ev: Event)
    requires Inv(s) && Covered(s) && Enabled(s, ev)
    ensures Count(Next(s, ev).stored, Running) <= Max(Count(s.stored, Running), Limit(s))
  {
    if !ev.Begin? {
      StepKeepsInv(s, ev);
      CoveredExposure(s);
      ExposureNeverGrows(s, ev);
      ExposureCoversRunning(Next(s, ev));
    }
  }

  // ---------------------------------------------------------------------
  // Whole runs
  // ---------------------------------------------------------------------

  ghost predicate Run(states: seq<System>, events: seq<Event>) {
    && |states| == |events| + 1
    && forall k :: 0 <= k < |events| ==> Enabled(states[k], events[k]) && states[k + 1] == Next(states[k], events[k])
  }

  lemma {:induction false} RunKeepsInv(states: seq<System>, events: seq<Event>, k: nat)
    requires Run(states, events) && k < |states|
    requires Inv(states[0])
    ensures Inv(states[k])
  {
    if k > 0 {
      RunKeepsInv(states, events, k - 1);
      StepKeepsInv(states[k - 1], events[k - 1]);
    }
  }

  /** If every tick begins safely, however old its snapshot, then in no state
      of the run are more than p projects stored as Running. */
  lemma {:induction false} SafeTicksKeepTheBound(states: seq<System>, events: seq<Event>, p: int, k: nat)
    requires Run(states, events) && k < |states|
    requires Inv(states[0]) && |Exposure(states[0])| <= p
    requires forall i :: 0 <= i < |events| && events[i].Begin? && |NamesWith(states[i].stored, Running)| <= p ==>
      SafeToBegin(states[i].stored, events[i].snapshot, events[i].parallelism, p)
    ensures |Exposure(states[k])| <= p && Count(states[k].stored, Running) <= p
  {
    hide NamesWith, Plan, FirstOf, ScheduledIn;
    RunKeepsInv(states, events, k);
    if k > 0 {
      SafeTicksKeepTheBound(states, events, p, k - 1);
      RunKeepsInv(states, events, k - 1);
      var s, ev := states[k - 1], events[k - 1];
      if ev.Begin? {
        SubsetCard(NamesWith(s.stored, Running), Exposure(s));
      } else {
        ExposureNeverGrows(s, ev);
      }
    }
    ExposureCoversRunning(states[k]);
  }

  ghost predicate FreshTicks(states: seq<System>, events: seq<Event>)
    requires Run(states, events)
  {
    forall i :: 0 <= i < |events| && events[i].Begin? ==> FreshEnough(events[i].snapshot, states[i].stored)
  }

  /** The promise of spec.parallelism: from at most p Running entries, with
      no tick reading a higher parallelism than p or missing a Running
      project, there are never more than p. */
  lemma NeverMoreThanParallelism(states: seq<System>, events: seq<Event>, p: int, k: nat)
    requires Run(states, events) && k < |states| && FreshTicks(states, events)
    requires Inv(states[0]) && Covered(states[0])
    requires Count(states[0].stored, Running) <= p && Limit(states[0]) <= p
    requires forall i :: 0 <= i < |events| && events[i].Begin? ==> events[i].parallelism <= p
    ensures Count(states[k].stored, Running) <= p
  {
    CoveredExposure(states[0]);
    forall i | 0 <= i < |events| && events[i].Begin? && |NamesWith(states[i].stored, Running)| <= p
      ensures SafeToBegin(states[i].stored, events[i].snapshot, events[i].parallelism, p)
    {
      FreshIsSafe(states[i].stored, events[i].snapshot, events[i].parallelism, p);
    }
    SafeTicksKeepTheBound(states, events, p, k);
  }

  lemma {:induction false} RunKeepsCovered(states: seq<System>, events: seq<Event>, k: nat)
    requires Run(states, events) && k < |states| && FreshTicks(states, events)
    requires Inv(states[0]) && Covered(states[0])
    ensures Covered(states[k])
  {
    if k > 0 {
      RunKeepsCovered(states, events, k - 1);
      RunKeepsInv(states, events, k - 1);
      StepKeepsCovered(states[k - 1], events[k - 1]);
    }
  }

  /** After parallelism is lowered to p the number of Running entries never
      rises while it is at or above p. */
  lemma LoweredParallelismOnlyDrains(states: seq<System>, events: seq<Event>, p: int, k: nat)
    requires Run(states, events) && k < |events| && FreshTicks(states, events)
    requires Inv(states[0]) && Covered(states[0])
    requires !states[k].mode.Idle? ==> Limit(states[k]) <= p
    requires Count(states[k].stored, Running) >= p
    ensures Count(states[k + 1].stored, Running) <= Count(states[k].stored, Running)
  {
    RunKeepsInv(states, events, k);
    RunKeepsCovered(states, events, k);
    StepRespectsLimit(states[k], events[k]);
  }

  /** The manager operation a step commits, if any. */
  function OpOf(s: System, ev: Event): Option<(Op, int)>
  {
    match (ev, s.mode)
    case (OtherCommit(op, now), _) => Some((op, now))
    case (Finish(outcome, duration, result, now, call), Freeing(snapshot, next, _, _, _)) =>
      if call.FailsUncommitted? || next >= |snapshot| then None
      else Some((UpdateOne(snapshot[next].name, Finished(outcome, duration, result)), now))
    case (Start(now, call), Starting(order, next, _, _, _)) =>
      if call.FailsUncommitted? || next >= |order| then None
      else Some((UpdateOne(order[next].name, STARTED), now))
    case _ => None
  }

  /** The project's record in a state that lists it. */
  ghost function Record(s: System, name: string): Entry
    requires Position(s.stored, name) < |s.stored|
  {
    s.stored[Position(s.stored, name)]
  }

  ghost predicate ListedThroughout(states: seq<System>, first: nat, last: nat, name: string) {
    last < |states| && forall k :: first <= k <= last ==> Position(states[k].stored, name) < |states[k].stored|
  }

  /** The project's records from the first to the last state. */
  ghost function TrailOf(states: seq<System>, first: nat, last: nat, name: string): seq<Entry>
    requires first <= last && ListedThroughout(states, first, last, name)
  {
    seq(last - first + 1, i requires 0 <= i <= last - first => Record(states[first + i], name))
  }

  /** When the steps between committed, if they did. */
  ghost function TimesOf(states: seq<System>, events: seq<Event>, first: nat, last: nat): seq<Option<int>>
    requires first <= last < |states| && Run(states, events)
  {
    seq(last - first, i requires 0 <= i < last - first => TimeOf(states[first + i], events[first + i]))
  }

  function TimeOf(s: System, ev: Event): Option<int> {
    match OpOf(s, ev)
    case Some((_, now)) => Some(now)
    case None => None
  }

  lemma StepMovesSafely(s: System, ev: Event, name: string)
    requires Inv(s) && Enabled(s, ev)
    requires Position(s.stored, name) < |s.stored| && Position(Next(s, ev).stored, name) < |Next(s, ev).stored|
    ensures SafeStep(Record(s, name), Record(Next(s, ev), name), TimeOf(s, ev))
  {
    var t := Next(s, ev);
    match OpOf(s, ev)
    case Some((op, now)) =>
      OperationsMoveSafely(op, s.stored, now, Position(s.stored, name), Position(t.stored, name));
    case None => assert t.stored == s.stored;
  }

  lemma TrailStep(states: seq<System>, events: seq<Event>, k: nat, name: string)
    requires Run(states, events) && Inv(states[0]) && k < |events|
    requires Position(states[k].stored, name) < |states[k].stored|
    requires Position(states[k + 1].stored, name) < |states[k + 1].stored|
    ensures SafeStep(Record(states[k], name), Record(states[k + 1], name), TimeOf(states[k], events[k]))
  {
    RunKeepsInv(states, events, k);
    hide Inv, Enabled, Next, Record, SafeStep, TimeOf;
    StepMovesSafely(states[k], events[k], name);
  }

  /** While a project stays listed, its records are a safe trail: from any
      state to any later one its last change of status was along an allowed
      edge, and LastRun is the time it last left Running. */
  lemma RunsMoveSafely(states: seq<System>, events: seq<Event>, first: nat, last: nat, name: string)
    requires Run(states, events) && Inv(states[0])
    requires first <= last && ListedThroughout(states, first, last, name)
    ensures var trail, times := TrailOf(states, first, last, name), TimesOf(states, events, first, last);
            SafeTrail(trail, times) && ReachedAlongEdge(trail) && LastRunTellsDeparture(trail, times)
  {
    var trail, times := TrailOf(states, first, last, name), TimesOf(states, events, first, last);
    assert |trail| == |times| + 1;
    forall i | 0 <= i < |times| ensures SafeStep(trail[i], trail[i + 1], times[i]) {
      TrailStep(states, events, first + i, name);
    }
    hide TrailOf, TimesOf, SafeStep, Run, Inv, ListedThroughout;
    TrailFollowsEdges(trail, times);
    TrailTellsLastRun(trail, times);
  }
}
