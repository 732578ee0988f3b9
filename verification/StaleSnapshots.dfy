/** Which snapshots a tick may work from: exactly when an old one can break the bound. */
module StaleSnapshots {
  import opened Options
  import opened Sequences
  import opened ProjectStatuses
  import opened ProjectLists
  import opened PrioritySort
  import opened StartQueue
  import opened ExecutorMachine

  /** The executor has just begun a tick on the snapshot, whatever its age. */
  ghost function Begun(stored: seq<Entry>, snapshot: seq<Entry>, parallelism: int): System
    requires UniqueNames(snapshot)
  {
    Next(System(stored, Idle), Begin(snapshot, parallelism))
  }

  /** A run from s in which no further tick begins. */
  ghost predicate TickRun(states: seq<System>, events: seq<Event>, s: System) {
    Run(states, events) && states[0] == s && forall k :: 0 <= k < |events| ==> !events[k].Begin?
  }

  ghost function RunningAtEnd(states: seq<System>): set<string>
    requires states != []
  {
    NamesWith(states[|states| - 1].stored, Running)
  }

  lemma Prepend(s: System, ev: Event, states: seq<System>, events: seq<Event>)
    requires Enabled(s, ev) && !ev.Begin? && TickRun(states, events, Next(s, ev))
    ensures TickRun([s] + states, [ev] + events, s)
    ensures RunningAtEnd([s] + states) == RunningAtEnd(states)
  {
    hide Enabled, Next;
    var longer, more := [s] + states, [ev] + events;
    forall k | 0 <= k < |more| ensures Enabled(longer[k], more[k]) && longer[k + 1] == Next(longer[k], more[k]) {
      if k > 0 {
        assert longer[k] == states[k - 1] && longer[k + 1] == states[k] && more[k] == events[k - 1];
      }
    }
  }

  // ---------------------------------------------------------------------
  // The run that reaches the whole exposure
  // ---------------------------------------------------------------------

  ghost predicate NoneFinished(ps: seq<Entry>) {
    forall k :: 0 <= k < |ps| ==> ps[k].status.Scheduled? || ps[k].status.Running?
  }

  lemma StartTakesEffect(ps: seq<Entry>, project: string, now: int)
    requires UniqueNames(ps) && NoneFinished(ps)
    ensures var after := Apply(UpdateOne(project, STARTED), ps, now);
            NoneFinished(after) && NamesWith(after, Running) == NamesWith(ps, Running) + {project}
  {
    UpdateOneNames(ps, project, STARTED, now, Running);
    hide NamesWith;
  }

  /** The projects the pass under way has still to look at. */
  function Left(s: System): int {
    match s.mode
    case Idle => 0
    case Freeing(snapshot, next, _, _, _) => |snapshot| - next
    case Starting(order, next, _, _, _) => |order| - next
  }

  /** With every project waiting or running, each start adds a Running entry. */
  lemma StartAddsRunning(stored: seq<Entry>, order: seq<Entry>, next: nat, slots: int, now: int)
    requires UniqueNames(stored) && NoneFinished(stored)
    requires next < |order| && order[next].status.Scheduled? && slots > 0
    ensures var after := Apply(UpdateOne(order[next].name, STARTED), stored, now);
            && NoneFinished(after)
            && NamesWith(after, Running) + AsSet(FirstOf(ScheduledIn(order[next + 1..]), slots - 1))
            == NamesWith(stored, Running) + AsSet(FirstOf(ScheduledIn(order[next..]), slots))
  {
    StartTakesEffect(stored, order[next].name, now);
    QueueHead(order, next);
    FirstOfCons(order[next].name, ScheduledIn(order[next + 1..]), slots);
    hide *;
  }

  lemma NextStart(s: System, now: int) returns (ev: Event)
    requires Inv(s) && s.mode.Starting? && NoneFinished(s.stored) && Left(s) > 0
    ensures Enabled(s, ev) && (ev.Start? || ev.Skip?)
    ensures Left(Next(s, ev)) == Left(s) - 1 && Next(s, ev).mode.Starting?
    ensures Inv(Next(s, ev)) && NoneFinished(Next(s, ev).stored) && Exposure(Next(s, ev)) == Exposure(s)
  {
    var Starting(order, next, running, _, parallelism) := s.mode;
    var starts := order[next].status.Scheduled? && running < parallelism;
    ev := if starts then Start(now, Succeeds) else Skip;
    assert Enabled(s, ev) && Left(Next(s, ev)) == Left(s) - 1 && Next(s, ev).mode.Starting?;
    assert ev.Skip? ==> Next(s, ev).stored == s.stored;
    StepKeepsInv(s, ev);
    if starts {
      assert UniqueNames(s.stored);
      StartAddsRunning(s.stored, order, next, parallelism - running, now);
      hide NamesWith, ScheduledIn, FirstOf, AsSet, Inv, Enabled, NoneFinished, Apply;
    } else {
      SkipKeepsInv(s, ev);
      hide Inv, Next, Enabled, NoneFinished, Exposure;
    }
  }

  lemma {:induction false} WorstSecondPass(s: System, now: int) returns (states: seq<System>, events: seq<Event>)
    requires Inv(s) && s.mode.Starting? && NoneFinished(s.stored)
    ensures TickRun(states, events, s) && RunningAtEnd(states) == Exposure(s)
    decreases Left(s)
  {
    if Left(s) == 0 {
      NothingWaits();
      assert s.mode.order[s.mode.next..] == [];
      states, events := [s], [];
    } else {
      var ev := NextStart(s, now);
      hide Inv, NoneFinished, Exposure, RunningAtEnd, TickRun, Left, Next, Enabled;
      states, events := WorstSecondPass(Next(s, ev), now);
      Prepend(s, ev, states, events);
      states, events := [s] + states, [ev] + events;
    }
  }

  lemma NothingWaits()
    ensures ScheduledIn([]) == [] && AsSet<string>([]) == {}
  {
  }

  lemma BatchKeepsRunning(ps: seq<Entry>, now: int)
    ensures NoneFinished(Apply(CRON_BATCH, ps, now))
    ensures NamesWith(Apply(CRON_BATCH, ps, now), Running) == NamesWith(ps, Running)
  {
    ForeignNeverAddsRunning(CRON_BATCH, ps, now);
    forall n | n in NamesWith(ps, Running) ensures n in NamesWith(Apply(CRON_BATCH, ps, now), Running) {
      var k := Holder(ps, Running, n);
      assert Apply(CRON_BATCH, ps, now)[k] == ps[k];
    }
  }

  /** Between the passes everybody else asks for everything again. */
  lemma WorstFromEndOfFreeing(s: System, now: int) returns (states: seq<System>, events: seq<Event>)
    requires Inv(s) && s.mode.Freeing? && s.mode.next == |s.mode.snapshot|
    requires s.mode.counted <= NamesWith(s.stored, Running)
    ensures TickRun(states, events, s) && RunningAtEnd(states) == Exposure(s)
  {
    hide NamesWith, Apply, ScheduledIn, Consistent, Sorted;
    var batch := OtherCommit(CRON_BATCH, now);
    var t := Next(s, EndOfFreeing);
    var u := Next(t, batch);
    StepKeepsInv(s, EndOfFreeing);
    StepKeepsInv(t, batch);
    BatchKeepsRunning(s.stored, now);
    states, events := WorstSecondPass(u, now);
    assert s.mode.counted * NamesWith(s.stored, Running) == s.mode.counted;
    assert Sorted(s.mode.snapshot)[0..] == Sorted(s.mode.snapshot);
    Prepend(t, batch, states, events);
    states, events := [t] + states, [batch] + events;
    Prepend(s, EndOfFreeing, states, events);
    states, events := [s] + states, [EndOfFreeing] + events;
  }

  ghost predicate RunningFrom(snapshot: seq<Entry>, next: nat, name: string) {
    exists i :: next <= i < |snapshot| && snapshot[i].status.Running? && snapshot[i].name == name
  }

  /** Every counted project the store does not hold as Running is still to be looked at. */
  ghost predicate MissedAreAhead(s: System)
    requires s.mode.Freeing?
  {
    forall n :: n in s.mode.counted && n !in NamesWith(s.stored, Running) ==> RunningFrom(s.mode.snapshot, s.mode.next, n)
  }

  /** Taking off such a project changes neither who runs nor the free slots. */
  lemma FinishOfMissed(stored: seq<Entry>, project: string, counted: set<string>, u: StatusUpdate, now: int)
    requires UniqueNames(stored) && project !in NamesWith(stored, Running) && (u.status.Completed? || u.status.Failed?)
    ensures var running := NamesWith(stored, Running);
            && NamesWith(Apply(UpdateOne(project, u), stored, now), Running) == running
            && (counted - {project}) * running == counted * running
  {
    UpdateOneNames(stored, project, u, now, Running);
    FinishedIsNotRunning(stored, project, u, now);
    hide NamesWith, Apply, Written;
  }

  lemma NextFinish(s: System, now: int) returns (ev: Event)
    requires Inv(s) && s.mode.Freeing? && MissedAreAhead(s) && Left(s) > 0
    ensures Enabled(s, ev) && (ev.Finish? || ev.Skip?)
    ensures Next(s, ev).mode.Freeing? && Inv(Next(s, ev)) && MissedAreAhead(Next(s, ev))
    ensures Exposure(Next(s, ev)) == Exposure(s)
  {
    hide NamesWith, Apply, Plan;
    var Freeing(snapshot, next, _, _, _) := s.mode;
    var finishes := snapshot[next].status.Running? && snapshot[next].name !in NamesWith(s.stored, Running);
    ev := if finishes then Finish(Completed, "", None, now, Succeeds) else Skip;
    assert Enabled(s, ev) && Next(s, ev).mode.Freeing?;
    StepKeepsInv(s, ev);
    if finishes {
      assert UniqueNames(s.stored);
      FinishOfMissed(s.stored, snapshot[next].name, s.mode.counted, Finished(Completed, "", None), now);
      hide Inv, Enabled;
    } else {
      SkipKeepsInv(s, ev);
      hide Inv, Enabled, Exposure;
    }
  }

  lemma {:induction false} WorstFirstPass(s: System, now: int) returns (states: seq<System>, events: seq<Event>)
    requires Inv(s) && s.mode.Freeing? && MissedAreAhead(s)
    ensures TickRun(states, events, s) && RunningAtEnd(states) == Exposure(s)
    decreases Left(s)
  {
    if Left(s) == 0 {
      states, events := WorstFromEndOfFreeing(s, now);
    } else {
      var ev := NextFinish(s, now);
      assert Left(Next(s, ev)) == Left(s) - 1;
      hide Inv, MissedAreAhead, Exposure, RunningAtEnd, TickRun, Left, Next, Enabled;
      states, events := WorstFirstPass(Next(s, ev), now);
      Prepend(s, ev, states, events);
      states, events := [s] + states, [ev] + events;
    }
  }

  // ---------------------------------------------------------------------
  // The exact condition
  // ---------------------------------------------------------------------

  lemma BeginningIsSound(stored: seq<Entry>, snapshot: seq<Entry>, parallelism: int, p: int)
    requires Consistent(stored) && UniqueNames(snapshot)
    ensures Inv(Begun(stored, snapshot, parallelism))
    ensures |Exposure(Begun(stored, snapshot, parallelism))| <= p <==> SafeToBegin(stored, snapshot, parallelism, p)
  {
    StepKeepsInv(System(stored, Idle), Begin(snapshot, parallelism));
  }

  /** A tick begun on a snapshot of any age stays within p in all its runs,
      whatever others commit and however jobs end, exactly if what runs at its
      beginning, together with what the snapshot would have started beside it,
      fits into p. */
  lemma TickStaysWithinIffSafe(stored: seq<Entry>, snapshot: seq<Entry>, parallelism: int, p: int)
    requires Consistent(stored) && UniqueNames(snapshot)
    ensures SafeToBegin(stored, snapshot, parallelism, p) <==>
      forall states: seq<System>, events: seq<Event>, k ::
        TickRun(states, events, Begun(stored, snapshot, parallelism)) && 0 <= k < |states| ==>
          Count(states[k].stored, Running) <= p
  {
    var s := Begun(stored, snapshot, parallelism);
    BeginningIsSound(stored, snapshot, parallelism, p);
    if SafeToBegin(stored, snapshot, parallelism, p) {
      forall states: seq<System>, events: seq<Event>, k | TickRun(states, events, s) && 0 <= k < |states|
        ensures Count(states[k].stored, Running) <= p
      {
        SafeTicksKeepTheBound(states, events, p, k);
      }
    } else {
      var states, events := WorstTick(stored, snapshot, parallelism, 0);
      assert Count(states[|states| - 1].stored, Running) > p;
    }
  }

  /** Some run of the tick ends with exactly the exposed projects Running. */
  lemma WorstTick(stored: seq<Entry>, snapshot: seq<Entry>, parallelism: int, now: int)
    returns (states: seq<System>, events: seq<Event>)
    requires Consistent(stored) && UniqueNames(snapshot)
    ensures var s := Begun(stored, snapshot, parallelism);
            && TickRun(states, events, s)
            && RunningAtEnd(states) == Exposure(s)
            && Count(states[|states| - 1].stored, Running) == |Exposure(s)|
  {
    var s := Begun(stored, snapshot, parallelism);
    BeginningIsSound(stored, snapshot, parallelism, 0);
    forall n | n in s.mode.counted ensures RunningFrom(snapshot, 0, n) {
      var i := Holder(snapshot, Running, n);
    }
    hide NamesWith, Exposure;
    states, events := WorstFirstPass(s, now);
    RunKeepsInv(states, events, |states| - 1);
    CountIsCardinality(states[|states| - 1].stored, Running);
  }

  // ---------------------------------------------------------------------
  // A snapshot one commit old
  // ---------------------------------------------------------------------

  const WAITING_A := Entry("a", 0, None, Scheduled, 0, None)
  const RUNNING_A := WAITING_A.(status := Running)
  const URGENT_B := Entry("b", 0, None, Scheduled, 1, None)

  lemma UrgentGoesFirst()
    ensures AsSet(Plan([WAITING_A, URGENT_B], 1)) == {"b"}
  {
    SortedPair(WAITING_A, URGENT_B);
    ScheduledInCons([URGENT_B, WAITING_A]);
    assert Plan([WAITING_A, URGENT_B], 1)[0] == "b";
  }

  lemma NamesOfPair(a: Entry, b: Entry, st: Status)
    ensures NamesWith([a, b], st) == (if a.status == st then {a.name} else {}) + if b.status == st then {b.name} else {}
  {
    assert [a, b][0] == a && [a, b][1] == b;
  }

  lemma LaggingExposure()
    ensures Exposure(Begun([RUNNING_A, URGENT_B], [WAITING_A, URGENT_B], 1)) == {"a", "b"}
  {
    NamesOfPair(WAITING_A, URGENT_B, Running);
    NamesOfPair(RUNNING_A, URGENT_B, Running);
    UrgentGoesFirst();
    hide NamesWith, Plan, Count;
  }

  /** It misses that "a" was just started, so a tick with one slot gives that
      slot to the more urgent "b" and ends with two Running projects. */
  lemma LaggingSnapshotBreaksBound(now: int) returns (snapshot: seq<Entry>, states: seq<System>, events: seq<Event>)
    ensures var stored := Apply(UpdateOne("a", STARTED), snapshot, now);
            && Consistent(snapshot) && Consistent(stored) && Count(stored, Running) == 1
            && TickRun(states, events, Begun(stored, snapshot, 1))
    ensures Count(states[|states| - 1].stored, Running) == 2
  {
    snapshot := [WAITING_A, URGENT_B];
    var stored := [RUNNING_A, URGENT_B];
    assert stored == Apply(UpdateOne("a", STARTED), snapshot, now);
    NamesOfPair(WAITING_A, URGENT_B, Running);
    NamesOfPair(RUNNING_A, URGENT_B, Running);
    UrgentGoesFirst();
    CountIsCardinality(stored, Running);
    LaggingExposure();
    hide *;
    states, events := WorstTick(stored, snapshot, 1, now);
  }
}
