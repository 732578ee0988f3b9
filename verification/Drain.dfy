/** Undisturbed ticks use up the waiting work: a measure falls with every start and finish. */
module Drain {
  import opened Options
  import opened Sequences
  import opened ProjectStatuses
  import opened ProjectLists
  import opened StartQueue
  import opened ExecutorMachine
  import opened ExecutorTick
  import opened StartOrder

  /** Starts and finishes still to come if every waiting project is run. */
  function Measure(ps: seq<Entry>): nat {
    2 * Count(ps, Scheduled) + Count(ps, Running)
  }

  lemma RewriteNames(ps: seq<Entry>, names: set<string>, u: string -> StatusUpdate, clock: string -> int, from: Status, st: Status)
    requires UniqueNames(ps) && names <= NamesWith(ps, from)
    requires forall n :: n in names ==> MayMove(from, u(n).status)
    ensures UniqueNames(Rewrite(ps, names, u, clock))
    ensures NamesWith(Rewrite(ps, names, u, clock), st)
         == (NamesWith(ps, st) - names) + set n | n in names && u(n).status == st
  {
    var after := Rewrite(ps, names, u, clock);
    forall k | 0 <= k < |ps|
      ensures after[k].name == ps[k].name
      ensures ps[k].name in names ==> ps[k].status == from && after[k].status == u(ps[k].name).status
    {
      if ps[k].name in names {
        NotBothStatuses(ps, k, from);
      }
    }
    forall n ensures n in NamesWith(after, st) <==>
      n in (NamesWith(ps, st) - names) + set m | m in names && u(m).status == st
    {
      if n in NamesWith(after, st) {
        var k := Holder(after, st, n);
      }
      if n in NamesWith(ps, st) && n !in names {
        var k := Holder(ps, st, n);
        assert after[k] == ps[k];
      }
      if n in names {
        var k := Holder(ps, from, n);
        assert after[k].name == n;
      }
    }
  }

  lemma FreedNames(ps: seq<Entry>, w: World)
    requires UniqueNames(ps)
    ensures UniqueNames(Freed(ps, w))
    ensures NamesWith(Freed(ps, w), Scheduled) == NamesWith(ps, Scheduled)
    ensures NamesWith(Freed(ps, w), Running) == NamesWith(ps, Running) - EndedNames(ps, w)
  {
    var ended := EndedNames(ps, w);
    RewriteNames(ps, ended, EndingOf(w), w.clock, Running, Scheduled);
    RewriteNames(ps, ended, EndingOf(w), w.clock, Running, Running);
    forall n | n in NamesWith(ps, Scheduled) ensures n !in ended {
      var k := Holder(ps, Scheduled, n);
      NotBothStatuses(ps, k, Running);
    }
  }

  /** A tick moves the planned projects from waiting to running and the
      projects whose job ended out of running. */
  lemma TickNames(ps: seq<Entry>, parallelism: int, w: World)
    requires UniqueNames(ps)
    ensures var started := AsSet(Plan(ps, parallelism - StillActive(ps, w)));
            var after := AfterTick(ps, parallelism, w);
            && UniqueNames(after)
            && started <= NamesWith(ps, Scheduled)
            && NamesWith(after, Scheduled) == NamesWith(ps, Scheduled) - started
            && NamesWith(after, Running) == NamesWith(ps, Running) - EndedNames(ps, w) + started
  {
    hide Rewrite, Plan, NamesWith, EndedNames;
    var slots := parallelism - StillActive(ps, w);
    var started, freed := AsSet(Plan(ps, slots)), Freed(ps, w);
    FreedNames(ps, w);
    PlanFillsTheSlots(ps, slots);
    RewriteNames(freed, started, StartOf(), w.clock, Scheduled, Scheduled);
    RewriteNames(freed, started, StartOf(), w.clock, Scheduled, Running);
    assert (set n | n in started && StartOf()(n).status == Running) == started;
    assert (set n | n in started && StartOf()(n).status == Scheduled) == {};
    forall n | n in started ensures n !in NamesWith(ps, Running) {
      NoNameTwice(ps, n, Scheduled, Running);
    }
  }

  lemma NoNameTwice(ps: seq<Entry>, n: string, st: Status, other: Status)
    requires UniqueNames(ps) && n in NamesWith(ps, st) && st != other
    ensures n !in NamesWith(ps, other)
  {
  }

  /** The measure falls by one at every start and every finish, and by nothing else. */
  lemma TickLowersMeasure(ps: seq<Entry>, parallelism: int, w: World)
    requires UniqueNames(ps)
    ensures Measure(AfterTick(ps, parallelism, w))
         == Measure(ps) - |EndedNames(ps, w)| - |Plan(ps, parallelism - StillActive(ps, w))|
  {
    hide Plan, AfterTick, NamesWith;
    var plan, after := Plan(ps, parallelism - StillActive(ps, w)), AfterTick(ps, parallelism, w);
    var started, ended := AsSet(plan), EndedNames(ps, w);
    TickNames(ps, parallelism, w);
    PlanFillsTheSlots(ps, parallelism - StillActive(ps, w));
    AsSetCount(plan);
    CountIsCardinality(ps, Scheduled);
    CountIsCardinality(ps, Running);
    CountIsCardinality(after, Scheduled);
    CountIsCardinality(after, Running);
    hide Count;
    assert started !! NamesWith(ps, Running) - ended by {
      forall n | n in started ensures n !in NamesWith(ps, Running) {
        NoNameTwice(ps, n, Scheduled, Running);
      }
    }
  }

  // ---------------------------------------------------------------------
  // Many ticks
  // ---------------------------------------------------------------------

  ghost function AfterTicks(ps: seq<Entry>, ticks: seq<Tick>): seq<Entry>
    decreases |ticks|
  {
    if ticks == [] then ps else AfterTicks(AfterTick(ps, ticks[0].parallelism, ticks[0].world), ticks[1..])
  }

  /** The projects started over the ticks, in order. */
  ghost function StartsOver(ps: seq<Entry>, ticks: seq<Tick>): seq<string>
    decreases |ticks|
  {
    if ticks == [] then []
    else
      var t := ticks[0];
      Plan(ps, t.parallelism - StillActive(ps, t.world)) + StartsOver(AfterTick(ps, t.parallelism, t.world), ticks[1..])
  }

  /** Jobs finish: a tick that finds projects running finds some job of theirs ended. */
  ghost predicate JobsFinish(ps: seq<Entry>, ticks: seq<Tick>)
    decreases |ticks|
  {
    ticks == [] ||
    var t := ticks[0];
    && t.parallelism >= 1
    && (NamesWith(ps, Running) != {} ==> EndedNames(ps, t.world) != {})
    && JobsFinish(AfterTick(ps, t.parallelism, t.world), ticks[1..])
  }

  ghost predicate Undisturbed(t: Tick) { t.before == [] && Quiet(t.world) }

  /** No load fails and no tick meets an error, if nobody interferes. */
  ghost predicate NoErrors(ps: seq<Entry>, ticks: seq<Tick>)
    decreases |ticks|
  {
    ticks == [] ||
    var t := ticks[0];
    && !t.loadFails && !TickErrs(ps, t.parallelism, t.world)
    && NoErrors(AfterTick(ps, t.parallelism, t.world), ticks[1..])
  }

  lemma OneTick(ps: seq<Entry>, ticks: seq<Tick>, k: nat)
    requires k < |ticks|
    ensures var t, after := ticks[k], AfterTick(ps, ticks[k].parallelism, ticks[k].world);
            && AfterTicks(ps, ticks[k..]) == AfterTicks(after, ticks[k + 1..])
            && StartsOver(ps, ticks[k..])
               == Plan(ps, t.parallelism - StillActive(ps, t.world)) + StartsOver(after, ticks[k + 1..])
            && (NoErrors(ps, ticks[k..]) <==>
                  !t.loadFails && !TickErrs(ps, t.parallelism, t.world) && NoErrors(after, ticks[k + 1..]))
  {
    hide AfterTick, Plan, StillActive, TickErrs;
    assert ticks[k..][0] == ticks[k] && ticks[k..][1..] == ticks[k + 1..];
  }

  lemma NoTicks(ps: seq<Entry>, ticks: seq<Tick>)
    requires ticks == []
    ensures AfterTicks(ps, ticks) == ps && StartsOver(ps, ticks) == [] && NoErrors(ps, ticks)
  {
  }

  /** Each tick whose load succeeded began, in turn, with its parallelism. */
  ghost predicate TickedAt(events: seq<Event>, ticks: seq<Tick>, at: seq<nat>) {
    && |at| == |ticks|
    && (forall j, k :: 0 <= j < k < |at| ==> at[j] <= at[k] && (!ticks[j].loadFails ==> at[j] < at[k]))
    && forall k :: 0 <= k < |at| && !ticks[k].loadFails ==>
         at[k] < |events| && events[at[k]].Begin? && events[at[k]].parallelism == ticks[k].parallelism
  }

  ghost predicate TickedSoFar(events: seq<Event>, ticks: seq<Tick>, at: seq<nat>, k: nat) {
    k <= |ticks| && TickedAt(events, ticks[..k], at) && forall j :: 0 <= j < k ==> at[j] <= |events|
  }

  lemma TickedOneMore(before: seq<Event>, now: seq<Event>, after: seq<Event>, ticks: seq<Tick>, at: seq<nat>, k: nat)
    requires TickedSoFar(before, ticks, at, k) && k < |ticks| && before <= now <= after
    requires !ticks[k].loadFails ==>
      |now| < |after| && after[|now|].Begin? && after[|now|].parallelism == ticks[k].parallelism
    ensures TickedSoFar(after, ticks, at + [|now|], k + 1)
  {
    var more := at + [|now|];
    assert ticks[..k + 1][..k] == ticks[..k];
    assert forall j :: 0 <= j < k ==> more[j] == at[j] && ticks[..k + 1][j] == ticks[..k][j];
  }

  lemma AllTicked(events: seq<Event>, ticks: seq<Tick>, at: seq<nat>)
    ensures TickedSoFar(events, ticks, at, |ticks|) ==> TickedAt(events, ticks, at)
    ensures TickedSoFar(events, ticks, [], 0)
  {
    assert ticks[..|ticks|] == ticks;
  }

  /** The executor loop for one RenovateJob: between two ticks anyone may
      commit, and a failed tick does not stop the loop. Never are more projects
      stored as Running than the limit; if nobody interferes and nothing fails,
      the ticks compose. */
  method Execute(executor: Executor, ticks: seq<Tick>) returns (started: seq<string>, failures: nat)
    requires executor.cluster.Valid() && executor.cluster.mode.Idle?
    requires forall k :: 0 <= k < |ticks| ==>
      && OnlyForeign(ticks[k].world) && ticks[k].parallelism <= executor.cluster.limit
      && forall i :: 0 <= i < |ticks[k].before| ==> Foreign(ticks[k].before[i].op)
    modifies executor.cluster
    ensures executor.cluster.Valid() && executor.cluster.mode.Idle?
    ensures old(executor.cluster.states) <= executor.cluster.states
    ensures exists at :: TickedAt(executor.cluster.events, ticks, at)
    ensures forall k :: 0 <= k < |executor.cluster.states| ==>
      Count(executor.cluster.states[k].stored, Running) <= executor.cluster.limit
    ensures (forall k :: 0 <= k < |ticks| ==> Undisturbed(ticks[k])) ==>
      (failures == 0 <==> NoErrors(old(executor.cluster.stored), ticks))
    ensures failures == 0 && (forall k :: 0 <= k < |ticks| ==> Undisturbed(ticks[k])) ==>
      && executor.cluster.stored == AfterTicks(old(executor.cluster.stored), ticks)
      && started == StartsOver(old(executor.cluster.stored), ticks)
  {
    hide AfterTick, Plan, StillActive, BoundedRun, SafeToBegin, NamesWith, Count, TickErrs,
      TickedSoFar, TickedAt, AfterTicks, StartsOver, NoErrors, OutcomesRecorded, FirstPassErrs, Launched;
    assert ticks[0..] == ticks;
    started, failures := [], 0;
    ghost var initial := executor.cluster.stored;
    ghost var calm := forall k :: 0 <= k < |ticks| ==> Undisturbed(ticks[k]);
    ghost var at: seq<nat> := [];
    AllTicked(executor.cluster.events, ticks, at);
    for k := 0 to |ticks|
      invariant executor.cluster.Valid() && executor.cluster.mode.Idle?
      invariant old(executor.cluster.states) <= executor.cluster.states
      invariant TickedSoFar(executor.cluster.events, ticks, at, k)
      invariant failures == 0 && calm ==> AfterTicks(executor.cluster.stored, ticks[k..]) == AfterTicks(initial, ticks)
      invariant failures == 0 && calm ==>
        started + StartsOver(executor.cluster.stored, ticks[k..]) == StartsOver(initial, ticks)
      invariant calm ==>
        (failures == 0 && NoErrors(executor.cluster.stored, ticks[k..]) <==> NoErrors(initial, ticks))
    {
      ghost var before := executor.cluster.events;
      executor.cluster.Interfere(ticks[k].before);
      ghost var now := executor.cluster.events;
      OneTick(executor.cluster.stored, ticks, k);
      executor.cluster.CurrentListIsSafe(ticks[k].parallelism);
      var loaded := if ticks[k].loadFails then None else Some(executor.cluster.stored);
      var more, failed := executor.ExecuteRenovateJob(loaded, ticks[k].parallelism, ticks[k].world);
      TickedOneMore(before, now, executor.cluster.events, ticks, at, k);
      at := at + [|now|];
      started := started + more;
      if failed {
        failures := failures + 1;
      }
    }
    NoTicks(executor.cluster.stored, ticks[|ticks|..]);
    executor.cluster.StaysWithinLimit();
    assert TickedAt(executor.cluster.events, ticks, at) by {
      AllTicked(executor.cluster.events, ticks, at);
    }
  }

  /** At any point every project that waited at the beginning either still
      waits or has been started exactly once, and nothing else was started. */
  lemma {:induction false} StartedOnceOrStillWaiting(ps: seq<Entry>, ticks: seq<Tick>)
    requires UniqueNames(ps)
    ensures NoDuplicates(StartsOver(ps, ticks))
    ensures AsSet(StartsOver(ps, ticks)) !! NamesWith(AfterTicks(ps, ticks), Scheduled)
    ensures AsSet(StartsOver(ps, ticks)) + NamesWith(AfterTicks(ps, ticks), Scheduled) == NamesWith(ps, Scheduled)
    decreases |ticks|
  {
    hide Plan, AfterTick, NamesWith;
    if ticks != [] {
      var t := ticks[0];
      var plan := Plan(ps, t.parallelism - StillActive(ps, t.world));
      var after := AfterTick(ps, t.parallelism, t.world);
      TickNames(ps, t.parallelism, t.world);
      StartedOnceOrStillWaiting(after, ticks[1..]);
      PlanFillsTheSlots(ps, t.parallelism - StillActive(ps, t.world));
      var later := StartsOver(after, ticks[1..]);
      AsSetConcat(plan, later);
      NoDuplicatesConcat(plan, later);
    }
  }

  lemma {:induction false} NoneActiveWithoutRunning(ps: seq<Entry>, w: World)
    requires Count(ps, Running) == 0
    ensures StillActive(ps, w) == 0
  {
    if ps != [] {
      NoneActiveWithoutRunning(ps[..|ps| - 1], w);
    }
  }

  lemma ProgressLowersMeasure(ps: seq<Entry>, t: Tick)
    requires UniqueNames(ps) && Measure(ps) > 0 && t.parallelism >= 1
    requires NamesWith(ps, Running) != {} ==> EndedNames(ps, t.world) != {}
    ensures Measure(AfterTick(ps, t.parallelism, t.world)) < Measure(ps)
  {
    hide Plan, AfterTick;
    TickLowersMeasure(ps, t.parallelism, t.world);
    PlanFillsTheSlots(ps, t.parallelism - StillActive(ps, t.world));
    CountIsCardinality(ps, Running);
    if NamesWith(ps, Running) == {} {
      NoneActiveWithoutRunning(ps, t.world);
    }
  }

  /** As many ticks as the measure counts leave nothing waiting or running,
      and started exactly the projects that waited, each once. */
  lemma {:induction false} TicksDrain(ps: seq<Entry>, ticks: seq<Tick>)
    requires UniqueNames(ps) && JobsFinish(ps, ticks) && |ticks| >= Measure(ps)
    ensures Count(AfterTicks(ps, ticks), Scheduled) == 0 && Count(AfterTicks(ps, ticks), Running) == 0
    ensures NoDuplicates(StartsOver(ps, ticks)) && AsSet(StartsOver(ps, ticks)) == NamesWith(ps, Scheduled)
  {
    hide Plan, AfterTick, NamesWith;
    MeasureReachesZero(ps, ticks);
    StartedOnceOrStillWaiting(ps, ticks);
    var last := AfterTicks(ps, ticks);
    CountIsCardinality(last, Scheduled);
  }

  lemma {:induction false} MeasureReachesZero(ps: seq<Entry>, ticks: seq<Tick>)
    requires UniqueNames(ps) && JobsFinish(ps, ticks) && |ticks| >= Measure(ps)
    ensures Measure(AfterTicks(ps, ticks)) == 0 && UniqueNames(AfterTicks(ps, ticks))
    decreases |ticks|
  {
    hide Plan, AfterTick, NamesWith;
    if ticks != [] {
      var t := ticks[0];
      var after := AfterTick(ps, t.parallelism, t.world);
      TickNames(ps, t.parallelism, t.world);
      TickLowersMeasure(ps, t.parallelism, t.world);
      if Measure(ps) > 0 {
        ProgressLowersMeasure(ps, t);
      }
      MeasureReachesZero(after, ticks[1..]);
    }
  }
}
