/** Schedule requests from webhooks, the UI and the cron batch coalesce. */
module ScheduleRequests {
  import opened Options
  import opened Sequences
  import opened ProjectStatuses
  import opened ProjectLists

  datatype Request = Ask(project: string, priority: nat) | Cron

  function AsOp(r: Request): Op {
    match r
    case Ask(project, priority) => UpdateOne(project, StatusUpdate(Scheduled, priority, None, None))
    case Cron => CRON_BATCH
  }

  function ApplyAll(requests: seq<Request>, ps: seq<Entry>, now: int): seq<Entry> {
    if requests == [] then ps
    else Apply(AsOp(requests[|requests| - 1]), ApplyAll(requests[..|requests| - 1], ps, now), now)
  }

  function Find(ps: seq<Entry>, name: string): Option<Entry> {
    var i := Position(ps, name);
    if i < |ps| then Some(ps[i]) else None
  }

  predicate Asked(requests: seq<Request>, name: string) {
    exists i :: 0 <= i < |requests| && requests[i].Ask? && requests[i].project == name
  }

  /** The highest priority asked for the project, 0 if none was. */
  function Top(requests: seq<Request>, name: string): (p: nat)
    ensures forall i :: 0 <= i < |requests| && requests[i].Ask? && requests[i].project == name ==>
              requests[i].priority <= p
    ensures p == 0 || exists i :: 0 <= i < |requests| && requests[i] == Ask(name, p)
  {
    if requests == [] then 0
    else
      var last, rest := requests[|requests| - 1], Top(requests[..|requests| - 1], name);
      if last.Ask? && last.project == name && last.priority > rest then last.priority else rest
  }

  /** What any list of requests makes of one project. */
  function Coalesced(requests: seq<Request>, name: string, e: Option<Entry>): Option<Entry> {
    match e
    case None =>
      if Asked(requests, name) then Some(Entry(name, 0, None, Scheduled, Top(requests, name), None)) else None
    case Some(found) =>
      if found.status.Running? || !(Asked(requests, name) || Cron in requests) then e
      else Some(found.(status := Scheduled, priority := Max(found.priority, Top(requests, name))))
  }

  /** What one request makes of one project. */
  function Requested(r: Request, name: string, e: Option<Entry>): Option<Entry> {
    match e
    case None => if r.Ask? && r.project == name then Some(Entry(name, 0, None, Scheduled, r.priority, None)) else None
    case Some(found) =>
      if found.status.Running? || (r.Ask? && r.project != name) then e
      else Some(found.(status := Scheduled, priority := Max(found.priority, if r.Ask? then r.priority else 0)))
  }

  lemma OneRequest(r: Request, ps: seq<Entry>, name: string, now: int)
    ensures Find(Apply(AsOp(r), ps, now), name) == Requested(r, name, Find(ps, name))
  {
    var after := Apply(AsOp(r), ps, now);
    assert forall k :: 0 <= k < |ps| ==> after[k].name == ps[k].name;
    SamePosition(ps, after, name);
    if |after| > |ps| {
      assert after[|ps|].name == r.project;
    }
  }

  lemma SamePosition(ps: seq<Entry>, qs: seq<Entry>, name: string)
    requires |ps| <= |qs| && forall k :: 0 <= k < |ps| ==> qs[k].name == ps[k].name
    ensures Position(ps, name) < |ps| ==> Position(qs, name) == Position(ps, name)
    ensures Position(ps, name) == |ps| ==> Position(qs, name) >= |ps|
  {
  }

  /** Any finite sequence of requests leaves a waiting or finished project
      Scheduled with the highest priority seen, and a running one alone. */
  lemma {:induction false} RequestsCoalesce(requests: seq<Request>, ps: seq<Entry>, name: string, now: int)
    ensures Find(ApplyAll(requests, ps, now), name) == Coalesced(requests, name, Find(ps, name))
  {
    if requests != [] {
      var n := |requests| - 1;
      var front, last := requests[..n], requests[n];
      RequestsCoalesce(front, ps, name, now);
      OneRequest(last, ApplyAll(front, ps, now), name, now);
      hide Coalesced, Requested, Apply;
      CoalescedSnoc(front, last, name, Find(ps, name));
      assert requests == front + [last];
    }
  }

  lemma CoalescedSnoc(front: seq<Request>, last: Request, name: string, e: Option<Entry>)
    ensures Coalesced(front + [last], name, e) == Requested(last, name, Coalesced(front, name, e))
  {
    var requests := front + [last];
    assert requests[..|front|] == front;
    assert Cron in requests <==> Cron in front || last.Cron?;
    AskedSnoc(front, last, name);
  }

  lemma AskedSnoc(front: seq<Request>, last: Request, name: string)
    ensures Asked(front + [last], name) <==> Asked(front, name) || (last.Ask? && last.project == name)
    ensures !Asked(front, name) ==> Top(front, name) == 0
  {
    var requests := front + [last];
    assert requests[|front|] == last;
    assert forall i :: 0 <= i < |front| ==> requests[i] == front[i];
  }

  /** The order in which the requests commit does not matter. */
  lemma OrderOfRequestsIsIrrelevant(a: seq<Request>, b: seq<Request>, ps: seq<Entry>, name: string, now: int, later: int)
    requires multiset(a) == multiset(b)
    ensures Find(ApplyAll(a, ps, now), name) == Find(ApplyAll(b, ps, later), name)
  {
    RequestsCoalesce(a, ps, name, now);
    RequestsCoalesce(b, ps, name, later);
    AskedInOther(a, b, name);
    AskedInOther(b, a, name);
    assert Cron in a <==> Cron in multiset(a);
    assert Cron in b <==> Cron in multiset(b);
  }

  lemma AskedInOther(a: seq<Request>, b: seq<Request>, name: string)
    requires multiset(a) == multiset(b)
    ensures Asked(a, name) ==> Asked(b, name)
    ensures Top(a, name) <= Top(b, name)
  {
    forall i | 0 <= i < |a| ensures exists k :: 0 <= k < |b| && b[k] == a[i] {
      assert a[i] in multiset(a);
      assert a[i] in b;
    }
  }

  /** What webhooks, the UI and the cron closure send may fall between any two of the executor's steps. */
  lemma RequestsAreForeign(r: Request, discovered: seq<string>)
    ensures Foreign(AsOp(r)) && Foreign(UI_BATCH) && Foreign(SetExecutionOptions)
    ensures NoDuplicates(discovered) ==> Foreign(Reconcile(discovered))
  {
  }

  predicate NeitherRunningNorScheduled(e: Entry) { !e.status.Running? && !e.status.Scheduled? }

  const UI_PRIORITY := 2

  /** The UI's trigger-all batch skips projects that already wait. */
  const UI_BATCH := UpdateMatching(NeitherRunningNorScheduled, StatusUpdate(Scheduled, UI_PRIORITY, None, None))

  function Batched(e: Entry, now: int): Entry {
    if NeitherRunningNorScheduled(e) then Transition(e, UI_BATCH.update, now) else e
  }

  lemma BatchEach(ps: seq<Entry>, name: string, now: int)
    ensures var batched := Apply(UI_BATCH, ps, now);
            && |batched| == |ps| && Position(batched, name) == Position(ps, name)
            && forall k :: 0 <= k < |ps| ==> batched[k] == Batched(ps[k], now)
  {
    SamePosition(ps, Apply(UI_BATCH, ps, now), name);
  }

  lemma AskOne(ps: seq<Entry>, name: string, priority: nat, now: int)
    ensures var ask, i := AsOp(Ask(name, priority)), Position(ps, name);
            Apply(ask, ps, now) ==
              if i == |ps| then ps + [Appended(name, ask.update)] else ps[i := Transition(ps[i], ask.update, now)]
  {
  }

  lemma BothOrdersOfOne(e: Entry, priority: nat, now: int)
    ensures var ask := AsOp(Ask(e.name, priority)).update;
            Transition(Batched(e, now), ask, now) == Batched(Transition(e, ask, now), now)
            <==> e.status.Running? || e.status.Scheduled? || Max(e.priority, priority) >= UI_PRIORITY
  {
  }

  lemma CommuteOnUnlisted(ps: seq<Entry>, name: string, priority: nat, now: int)
    requires Position(ps, name) == |ps|
    ensures var ask := AsOp(Ask(name, priority));
            Apply(ask, Apply(UI_BATCH, ps, now), now) == Apply(UI_BATCH, Apply(ask, ps, now), now)
  {
    var ask := AsOp(Ask(name, priority));
    var asked := Apply(ask, ps, now);
    assert Batched(Appended(name, ask.update), now) == Appended(name, ask.update);
    hide Apply, Transition, Batched;
    BatchEach(ps, name, now);
    BatchEach(asked, name, now);
    AskOne(ps, name, priority, now);
    AskOne(Apply(UI_BATCH, ps, now), name, priority, now);
  }

  lemma CommuteOnListed(ps: seq<Entry>, name: string, priority: nat, now: int)
    requires Position(ps, name) < |ps|
    ensures var ask, e := AsOp(Ask(name, priority)), ps[Position(ps, name)];
            Apply(ask, Apply(UI_BATCH, ps, now), now) == Apply(UI_BATCH, Apply(ask, ps, now), now)
            <==> Transition(Batched(e, now), ask.update, now) == Batched(Transition(e, ask.update, now), now)
  {
    hide Apply, Transition, Batched;
    var ask, i := AsOp(Ask(name, priority)), Position(ps, name);
    var batched, asked := Apply(UI_BATCH, ps, now), Apply(ask, ps, now);
    BatchEach(ps, name, now);
    BatchEach(asked, name, now);
    AskOne(ps, name, priority, now);
    AskOne(batched, name, priority, now);
    EqualIffEqualAt(Apply(ask, batched, now), Apply(UI_BATCH, asked, now), i);
  }

  lemma EqualIffEqualAt(a: seq<Entry>, b: seq<Entry>, i: nat)
    requires |a| == |b| && i < |a| && forall k :: 0 <= k < |a| && k != i ==> a[k] == b[k]
    ensures a == b <==> a[i] == b[i]
  {
  }

  /** So the batch and a single request, for any project in any list, commute
      exactly if the project is not listed, runs or waits already, or has or is
      asked for a priority that reaches the batch's. */
  lemma UiBatchCommutesIff(ps: seq<Entry>, name: string, priority: nat, now: int)
    ensures var ask, i := AsOp(Ask(name, priority)), Position(ps, name);
            Apply(ask, Apply(UI_BATCH, ps, now), now) == Apply(UI_BATCH, Apply(ask, ps, now), now)
            <==> i == |ps| || ps[i].status.Running? || ps[i].status.Scheduled?
                 || ps[i].priority >= 2 || priority >= 2
  {
    var i := Position(ps, name);
    if i < |ps| {
      CommuteOnListed(ps, name, priority, now);
      BothOrdersOfOne(ps[i], priority, now);
    } else {
      CommuteOnUnlisted(ps, name, priority, now);
    }
    hide Apply, Transition, Batched;
  }
}
