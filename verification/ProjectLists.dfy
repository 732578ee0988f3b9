/** The list of projects stored in a RenovateJob's status, and what the manager operations make of it. */
module ProjectLists {
  import opened Options
  import opened Sequences
  import opened ProjectStatuses

  datatype Op =
    | UpdateOne(project: string, update: StatusUpdate)
    | UpdateMatching(selects: Entry -> bool, update: StatusUpdate)
    | Reconcile(discovered: seq<string>)
    | SetExecutionOptions

  predicate UniqueNames(ps: seq<Entry>) {
    forall i, j :: 0 <= i < j < |ps| ==> ps[i].name != ps[j].name
  }

  ghost function NamesWith(ps: seq<Entry>, st: Status): set<string> {
    set i | 0 <= i < |ps| && ps[i].status == st :: ps[i].name
  }

  lemma Holder(ps: seq<Entry>, st: Status, name: string) returns (i: nat)
    requires name in NamesWith(ps, st)
    ensures i < |ps| && ps[i].status == st && ps[i].name == name
  {
    i :| 0 <= i < |ps| && ps[i].status == st && ps[i].name == name;
  }

  function Count(ps: seq<Entry>, st: Status): nat {
    if ps == [] then 0
    else Count(ps[..|ps| - 1], st) + if ps[|ps| - 1].status == st then 1 else 0
  }

  /** The first position holding the name, or the length of the list. */
  function Position(ps: seq<Entry>, name: string): (i: nat)
    ensures i <= |ps|
    ensures i < |ps| ==> ps[i].name == name
    ensures forall j :: 0 <= j < i ==> ps[j].name != name
  {
    if ps == [] then 0 else if ps[0].name == name then 0 else 1 + Position(ps[1..], name)
  }

  /** The last entry with the name: what a map filled front to back holds for it. */
  function LastNamed(ps: seq<Entry>, name: string): (e: Option<Entry>)
    ensures e.Some? ==> e.value in ps && e.value.name == name
    ensures e.None? <==> forall i :: 0 <= i < |ps| ==> ps[i].name != name
  {
    if ps == [] then None
    else if ps[|ps| - 1].name == name then Some(ps[|ps| - 1])
    else LastNamed(ps[..|ps| - 1], name)
  }

  function Appended(project: string, u: StatusUpdate): Entry {
    Entry(project, 0, None, u.status, u.priority, None)
  }

  function Discovered(ps: seq<Entry>, project: string, now: int): Entry {
    match LastNamed(ps, project)
    case Some(e) => e
    case None => Entry(project, now, None, Scheduled, 0, None)
  }

  function ApplyToMatching(ps: seq<Entry>, selects: Entry -> bool, u: StatusUpdate, now: int): seq<Entry> {
    seq(|ps|, i requires 0 <= i < |ps| => if selects(ps[i]) then Transition(ps[i], u, now) else ps[i])
  }

  /** What one committed manager operation turns the stored list into. */
  function Apply(op: Op, ps: seq<Entry>, now: int): seq<Entry> {
    match op
    case UpdateOne(project, u) =>
      var i := Position(ps, project);
      if i == |ps| then ps + [Appended(project, u)] else ps[i := Transition(ps[i], u, now)]
    case UpdateMatching(selects, u) => ApplyToMatching(ps, selects, u, now)
    case Reconcile(discovered) =>
      seq(|discovered|, i requires 0 <= i < |discovered| => Discovered(ps, discovered[i], now))
    case SetExecutionOptions => ps
  }

  // ---------------------------------------------------------------------
  // Uniqueness and lookup
  // ---------------------------------------------------------------------

  lemma PositionUnique(ps: seq<Entry>, i: nat)
    requires UniqueNames(ps) && i < |ps|
    ensures Position(ps, ps[i].name) == i
  {
  }

  lemma NamesWithSnoc(ps: seq<Entry>, st: Status)
    requires ps != []
    ensures var n := |ps| - 1;
            NamesWith(ps, st) == NamesWith(ps[..n], st) + if ps[n].status == st then {ps[n].name} else {}
  {
  }

  lemma {:induction false} CountIsCardinality(ps: seq<Entry>, st: Status)
    requires UniqueNames(ps)
    ensures Count(ps, st) == |NamesWith(ps, st)|
  {
    if ps != [] {
      var n := |ps| - 1;
      CountIsCardinality(ps[..n], st);
      NamesWithSnoc(ps, st);
      assert ps[n].name !in NamesWith(ps[..n], st);
    }
  }

  // ---------------------------------------------------------------------
  // What every operation keeps
  // ---------------------------------------------------------------------

  /** Names are unique, no priority is negative, and only a waiting project has one. */
  ghost predicate Consistent(ps: seq<Entry>) {
    && UniqueNames(ps)
    && forall i :: 0 <= i < |ps| ==> ps[i].priority >= 0 && (ps[i].priority > 0 ==> ps[i].status.Scheduled?)
  }

  /** What the callers pass: only schedule requests carry a priority, and
      discovered lists hold no name twice. */
  predicate WellFormed(op: Op) {
    match op
    case UpdateOne(_, u) => u.priority >= 0 && (u.priority > 0 ==> u.status.Scheduled?)
    case UpdateMatching(_, u) => u.priority >= 0 && (u.priority > 0 ==> u.status.Scheduled?)
    case Reconcile(discovered) => NoDuplicates(discovered)
    case SetExecutionOptions => true
  }

  lemma OperationsKeepConsistency(op: Op, ps: seq<Entry>, now: int)
    requires Consistent(ps) && WellFormed(op)
    ensures Consistent(Apply(op, ps, now))
  {
    var after := Apply(op, ps, now);
    match op
    case UpdateOne(project, u) =>
      assert UniqueNames(after);
    case UpdateMatching(selects, u) =>
      assert forall i :: 0 <= i < |ps| ==> after[i].name == ps[i].name;
    case Reconcile(discovered) =>
      assert forall i :: 0 <= i < |discovered| ==> after[i].name == discovered[i];
    case SetExecutionOptions =>
  }

  /** One commit moves a surviving project along an allowed edge, or not at
      all, and LastRun changes exactly when it leaves Running. */
  ghost predicate SafeSuccessor(before: Entry, after: Entry, now: int) {
    && (before.status != after.status ==> MayMove(before.status, after.status))
    && (after.lastRun ==
        if before.status.Running? && !after.status.Running? then now else before.lastRun)
  }

  lemma OperationsMoveSafely(op: Op, ps: seq<Entry>, now: int, i: nat, j: nat)
    requires UniqueNames(ps) && WellFormed(op)
    requires i < |ps| && j < |Apply(op, ps, now)| && ps[i].name == Apply(op, ps, now)[j].name
    ensures SafeSuccessor(ps[i], Apply(op, ps, now)[j], now)
  {
  }

  /** A step that commits at the given time, or does not commit. */
  ghost predicate SafeStep(before: Entry, after: Entry, time: Option<int>) {
    match time
    case Some(now) => SafeSuccessor(before, after, now)
    case None => after == before
  }

  /** The records of one project in successive states. */
  ghost predicate SafeTrail(trail: seq<Entry>, times: seq<Option<int>>) {
    |trail| == |times| + 1 && forall k :: 0 <= k < |times| ==> SafeStep(trail[k], trail[k + 1], times[k])
  }

  /** The last change of status was along an allowed edge into the status reached. */
  ghost predicate ReachedAlongEdge(trail: seq<Entry>)
    requires trail != []
  {
    var reached := trail[|trail| - 1].status;
    trail[0].status != reached ==>
      exists k :: 0 <= k < |trail| - 1 && MayMove(trail[k].status, reached) && StaysFrom(trail, k + 1, reached)
  }

  predicate StaysFrom(trail: seq<Entry>, first: nat, status: Status) {
    forall m :: first <= m < |trail| ==> trail[m].status == status
  }

  predicate LeavesRunning(trail: seq<Entry>, k: nat)
    requires k + 1 < |trail|
  {
    trail[k].status.Running? && !trail[k + 1].status.Running?
  }

  predicate NeverLeavesFrom(trail: seq<Entry>, first: nat) {
    forall m :: first <= m < |trail| - 1 ==> !LeavesRunning(trail, m)
  }

  /** LastRun is the time of the last step out of Running, or unchanged without one. */
  ghost predicate LastRunTellsDeparture(trail: seq<Entry>, times: seq<Option<int>>)
    requires |trail| == |times| + 1
  {
    && (NeverLeavesFrom(trail, 0) ==> trail[|times|].lastRun == trail[0].lastRun)
    && (forall k :: 0 <= k < |times| && LeavesRunning(trail, k) && NeverLeavesFrom(trail, k + 1) ==>
          times[k] == Some(trail[|times|].lastRun))
  }

  lemma {:induction false} TrailFollowsEdges(trail: seq<Entry>, times: seq<Option<int>>)
    requires SafeTrail(trail, times)
    ensures ReachedAlongEdge(trail)
  {
    if times != [] {
      var n := |times| - 1;
      var front, reached := trail[..n + 1], trail[n + 1].status;
      TrailFollowsEdges(front, times[..n]);
      assert SafeStep(trail[n], trail[n + 1], times[n]);
      if trail[n].status != reached {
        assert StaysFrom(trail, n + 1, reached);
      } else if trail[0].status != reached {
        var k :| 0 <= k < n && MayMove(front[k].status, reached) && StaysFrom(front, k + 1, reached);
        assert forall m :: k < m <= n ==> trail[m] == front[m];
        assert StaysFrom(trail, k + 1, reached);
      }
    }
  }

  lemma {:induction false} TrailTellsLastRun(trail: seq<Entry>, times: seq<Option<int>>)
    requires SafeTrail(trail, times)
    ensures LastRunTellsDeparture(trail, times)
  {
    if times != [] {
      var n := |times| - 1;
      var front := trail[..n + 1];
      TrailTellsLastRun(front, times[..n]);
      assert SafeStep(trail[n], trail[n + 1], times[n]);
      forall k: nat | k <= n && NeverLeavesFrom(trail, k)
        ensures NeverLeavesFrom(front, k) && trail[n + 1].lastRun == trail[n].lastRun
      {
        assert forall m :: k <= m < n ==> LeavesRunning(front, m) == LeavesRunning(trail, m);
        assert !LeavesRunning(trail, n);
      }
      forall k | 0 <= k <= n && LeavesRunning(trail, k) && NeverLeavesFrom(trail, k + 1)
        ensures times[k] == Some(trail[n + 1].lastRun)
      {
        if k < n {
          assert LeavesRunning(front, k) && times[..n][k] == times[k];
        }
      }
    }
  }

  // ---------------------------------------------------------------------
  // Running entries
  // ---------------------------------------------------------------------

  /** Operations issued by anyone but the executor. */
  predicate Foreign(op: Op) {
    && WellFormed(op)
    && match op
       case UpdateOne(_, u) => u.status.Scheduled?
       case UpdateMatching(_, u) => u.status.Scheduled?
       case _ => true
  }

  lemma ForeignNeverAddsRunning(op: Op, ps: seq<Entry>, now: int)
    requires Foreign(op)
    ensures NamesWith(Apply(op, ps, now), Running) <= NamesWith(ps, Running)
  {
  }

  /** The entry an update of one project leaves under that name. */
  function Written(ps: seq<Entry>, project: string, u: StatusUpdate, now: int): Entry {
    var i := Position(ps, project);
    if i == |ps| then Appended(project, u) else Transition(ps[i], u, now)
  }

  lemma UpdateOneNames(ps: seq<Entry>, project: string, u: StatusUpdate, now: int, st: Status)
    requires UniqueNames(ps)
    ensures NamesWith(Apply(UpdateOne(project, u), ps, now), st)
         == (NamesWith(ps, st) - {project}) + if Written(ps, project, u, now).status == st then {project} else {}
  {
    var after := Apply(UpdateOne(project, u), ps, now);
    var at := Position(ps, project);
    assert after[at] == Written(ps, project, u, now) && after[at].name == project;
    assert forall k :: 0 <= k < |after| && k != at ==> k < |ps| && after[k] == ps[k] && ps[k].name != project;
    forall n | n != project ensures n in NamesWith(ps, st) <==> n in NamesWith(after, st) {
      if n in NamesWith(ps, st) {
        var k := Holder(ps, st, n);
        assert after[k] == ps[k];
      }
      if n in NamesWith(after, st) {
        var k := Holder(after, st, n);
        assert after[k] == ps[k];
      }
    }
    if project in NamesWith(after, st) {
      var k := Holder(after, st, project);
      assert k == at;
    }
  }

  /** A discovered list can raise the number of Running entries of some
      consistent store exactly when it names a project twice. */
  lemma ReconcileKeepsRunningCountIffNoDuplicates(discovered: seq<string>, now: int)
    ensures NoDuplicates(discovered) <==>
            forall ps :: Consistent(ps) ==>
              Count(Apply(Reconcile(discovered), ps, now), Running) <= Count(ps, Running)
  {
    if NoDuplicates(discovered) {
      forall ps | Consistent(ps)
        ensures Count(Apply(Reconcile(discovered), ps, now), Running) <= Count(ps, Running)
      {
        var op := Reconcile(discovered);
        OperationsKeepConsistency(op, ps, now);
        ForeignNeverAddsRunning(op, ps, now);
        CountIsCardinality(ps, Running);
        CountIsCardinality(Apply(op, ps, now), Running);
        SubsetCard(NamesWith(Apply(op, ps, now), Running), NamesWith(ps, Running));
      }
    } else {
      var i, j :| 0 <= i < j < |discovered| && discovered[i] == discovered[j];
      var e := Entry(discovered[i], 0, None, Running, 0, None);
      var ps := [e];
      var after := Apply(Reconcile(discovered), ps, now);
      assert after[i] == e && after[j] == e;
      CountAtLeastTwo(after, Running, i, j);
      assert Count(ps, Running) == 1 by { assert ps[..0] == []; }
      assert Consistent(ps);
    }
  }

  lemma {:induction false} CountAtLeastOne(ps: seq<Entry>, st: Status, i: nat)
    requires i < |ps| && ps[i].status == st
    ensures Count(ps, st) >= 1
  {
    if i < |ps| - 1 { CountAtLeastOne(ps[..|ps| - 1], st, i); }
  }

  lemma {:induction false} CountAtLeastTwo(ps: seq<Entry>, st: Status, i: nat, j: nat)
    requires i < j < |ps| && ps[i].status == st && ps[j].status == st
    ensures Count(ps, st) >= 2
  {
    var front := ps[..|ps| - 1];
    if j < |ps| - 1 { CountAtLeastTwo(front, st, i, j); } else { CountAtLeastOne(front, st, i); }
  }

  // ---------------------------------------------------------------------
  // Reconcile conserves
  // ---------------------------------------------------------------------

  lemma {:induction false} LastNamedIs(ps: seq<Entry>, i: nat)
    requires i < |ps| && forall m :: i < m < |ps| ==> ps[m].name != ps[i].name
    ensures LastNamed(ps, ps[i].name) == Some(ps[i])
  {
    if i < |ps| - 1 {
      LastNamedIs(ps[..|ps| - 1], i);
    }
  }

  /** The discovered names in order; a name stored before carried over whole
      from its last entry; the rest new and Scheduled. */
  lemma ReconcileConserves(ps: seq<Entry>, discovered: seq<string>, now: int)
    ensures var after := Apply(Reconcile(discovered), ps, now);
            && |after| == |discovered|
            && (forall k :: 0 <= k < |after| ==> after[k].name == discovered[k])
            && (forall i, k :: 0 <= i < |ps| && 0 <= k < |after| && ps[i].name == discovered[k] ==>
                  (forall m :: i < m < |ps| ==> ps[m].name != discovered[k]) ==> after[k] == ps[i])
            && (forall k :: 0 <= k < |after| && (forall i :: 0 <= i < |ps| ==> ps[i].name != discovered[k]) ==>
                  after[k] == Entry(discovered[k], now, None, Scheduled, 0, None))
  {
    var after := Apply(Reconcile(discovered), ps, now);
    forall i, k | 0 <= i < |ps| && 0 <= k < |after| && ps[i].name == discovered[k]
      && (forall m :: i < m < |ps| ==> ps[m].name != discovered[k])
      ensures after[k] == ps[i]
    {
      LastNamedIs(ps, i);
    }
  }

  /** Repeating a reconcile with the same list changes nothing, whatever the list. */
  lemma ReconcileIdempotent(ps: seq<Entry>, discovered: seq<string>, now: int, later: int)
    ensures var once := Apply(Reconcile(discovered), ps, now);
            Apply(Reconcile(discovered), once, later) == once
  {
  }

  predicate NotRunning(e: Entry) { !e.status.Running? }

  const CRON_BATCH := UpdateMatching(NotRunning, StatusUpdate(Scheduled, 0, None, None))

  /** After the scheduled closure's two commits every project waits or runs,
      and exactly the survivors that ran before still run. */
  lemma CronLeavesOnlyWaitingOrRunning(ps: seq<Entry>, discovered: seq<string>, now: int, later: int)
    requires UniqueNames(ps)
    ensures var after := Apply(CRON_BATCH, Apply(Reconcile(discovered), ps, now), later);
            && |after| == |discovered|
            && forall k :: 0 <= k < |after| ==>
                 && after[k].name == discovered[k]
                 && after[k].status == if discovered[k] in NamesWith(ps, Running) then Running else Scheduled
  {
  }
}
