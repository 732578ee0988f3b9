/** Which waiting projects a tick starts, told by rank alone. */
module StartOrder {
  import opened Sequences
  import opened ProjectStatuses
  import opened ProjectLists
  import opened PrioritySort
  import opened StartQueue

  /** Entry j goes before entry i: more urgent, or as urgent and listed earlier. */
  predicate Outranks(ps: seq<Entry>, j: nat, i: nat)
    requires j < |ps| && i < |ps|
  {
    ps[j].priority > ps[i].priority || (ps[j].priority == ps[i].priority && j < i)
  }

  /** The waiting entries that go before entry i. */
  function RankedBefore(ps: seq<Entry>, i: nat): set<nat>
    requires i < |ps|
  {
    set j: nat | j < |ps| && ps[j].status.Scheduled? && Outranks(ps, j, i)
  }

  ghost predicate OutranksNamed(ps: seq<Entry>, a: string, b: string) {
    var j, i := Position(ps, a), Position(ps, b);
    j < |ps| && i < |ps| && Outranks(ps, j, i)
  }

  // ---------------------------------------------------------------------
  // The sorted list is in rank order
  // ---------------------------------------------------------------------

  ghost predicate RankOrdered(ps: seq<Entry>, es: seq<Entry>) {
    forall p, q :: 0 <= p < q < |es| ==> OutranksNamed(ps, es[p].name, es[q].name)
  }

  lemma PositionInLonger(ps: seq<Entry>, last: Entry, name: string)
    ensures Position(ps + [last], name) ==
      if Position(ps, name) < |ps| then Position(ps, name)
      else if last.name == name then |ps| else |ps| + 1
  {
    var longer := ps + [last];
    var i, k := Position(ps, name), Position(longer, name);
    if i < |ps| {
      assert longer[i].name == name;
    } else {
      assert longer[|ps|] == last;
    }
  }

  lemma OutranksInLonger(ps: seq<Entry>, last: Entry, a: string, b: string)
    requires OutranksNamed(ps, a, b)
    ensures OutranksNamed(ps + [last], a, b)
  {
    PositionInLonger(ps, last, a);
    PositionInLonger(ps, last, b);
  }

  lemma {:induction false} SortedIsRankOrdered(ps: seq<Entry>)
    requires UniqueNames(ps)
    ensures RankOrdered(ps, Sorted(ps))
  {
    if ps != [] {
      var front, last := ps[..|ps| - 1], ps[|ps| - 1];
      var es := Sorted(front);
      SortedIsRankOrdered(front);
      assert ps == front + [last];
      forall p | 0 <= p < |es|
        ensures if es[p].priority >= last.priority then OutranksNamed(ps, es[p].name, last.name)
                else OutranksNamed(ps, last.name, es[p].name)
      {
        NewestRanksLast(front, last, es[p]);
      }
      forall p, q | 0 <= p < q < |es| ensures OutranksNamed(ps, es[p].name, es[q].name) {
        OutranksInLonger(front, last, es[p].name, es[q].name);
      }
      SortedDescending(front);
      InsertedOrder(ps, es, last);
    }
  }

  lemma NewestRanksLast(front: seq<Entry>, last: Entry, e: Entry)
    requires UniqueNames(front + [last]) && e in Sorted(front)
    ensures if e.priority >= last.priority then OutranksNamed(front + [last], e.name, last.name)
            else OutranksNamed(front + [last], last.name, e.name)
  {
    var ps := front + [last];
    SortedMembers(front, e);
    var k :| 0 <= k < |front| && front[k] == e;
    PositionUnique(ps, k);
    PositionUnique(ps, |front|);
    assert ps[k] == e && ps[|front|] == last;
  }

  lemma InsertedOrder(ps: seq<Entry>, es: seq<Entry>, e: Entry)
    requires RankOrdered(ps, es)
    requires forall p :: 0 <= p < |es| ==>
      if es[p].priority >= e.priority then OutranksNamed(ps, es[p].name, e.name)
      else OutranksNamed(ps, e.name, es[p].name)
    requires Descending(es)
    ensures RankOrdered(ps, Inserted(es, e))
  {
    hide OutranksNamed;
    var n, r := PrioritySort.Ahead(es, e.priority), Inserted(es, e);
    forall p, q | 0 <= p < q < |r| ensures OutranksNamed(ps, r[p].name, r[q].name) {
      assert r[p] == if p < n then es[p] else if p == n then e else es[p - 1];
      assert r[q] == if q < n then es[q] else if q == n then e else es[q - 1];
      assert p == n ==> es[q - 1].priority <= es[n].priority < e.priority;
    }
  }

  // ---------------------------------------------------------------------
  // The waiting names are in rank order and complete
  // ---------------------------------------------------------------------

  ghost predicate NamesRankOrdered(ps: seq<Entry>, names: seq<string>) {
    forall p, q :: 0 <= p < q < |names| ==> OutranksNamed(ps, names[p], names[q])
  }

  lemma {:induction false} ScheduledInOrder(ps: seq<Entry>, es: seq<Entry>)
    requires RankOrdered(ps, es)
    ensures NamesRankOrdered(ps, ScheduledIn(es))
  {
    hide OutranksNamed;
    if es != [] {
      var front, last := es[..|es| - 1], es[|es| - 1];
      ScheduledInOrder(ps, front);
      var names := ScheduledIn(front);
      forall p | 0 <= p < |names| ensures last.status.Scheduled? ==> OutranksNamed(ps, names[p], last.name) {
        ScheduledInNames(front, names[p]);
        var k :| 0 <= k < |front| && front[k].name == names[p] && front[k].status.Scheduled?;
        assert es[k] == front[k];
      }
    }
  }

  lemma {:induction false} ScheduledInComplete(es: seq<Entry>, e: Entry)
    requires e in es && e.status.Scheduled?
    ensures e.name in ScheduledIn(es)
  {
    var front, last := es[..|es| - 1], es[|es| - 1];
    if e != last {
      assert es == front + [last];
      ScheduledInComplete(front, e);
    }
  }

  /** The queue a tick works off: every waiting project once, in rank order. */
  lemma QueueIsComplete(ps: seq<Entry>, i: nat) returns (p: nat)
    requires UniqueNames(ps) && i < |ps| && ps[i].status.Scheduled?
    ensures p < |ScheduledIn(Sorted(ps))| && ScheduledIn(Sorted(ps))[p] == ps[i].name
  {
    SortedMembers(ps, ps[i]);
    ScheduledInComplete(Sorted(ps), ps[i]);
    p :| 0 <= p < |ScheduledIn(Sorted(ps))| && ScheduledIn(Sorted(ps))[p] == ps[i].name;
  }

  lemma QueueIsSound(ps: seq<Entry>, n: string) returns (i: nat)
    requires UniqueNames(ps) && n in ScheduledIn(Sorted(ps))
    ensures i < |ps| && ps[i].name == n && ps[i].status.Scheduled? && Position(ps, n) == i
  {
    ScheduledInNames(Sorted(ps), n);
    var k :| 0 <= k < |Sorted(ps)| && Sorted(ps)[k].name == n && Sorted(ps)[k].status.Scheduled?;
    SortedMembers(ps, Sorted(ps)[k]);
    i :| 0 <= i < |ps| && ps[i] == Sorted(ps)[k];
    PositionUnique(ps, i);
  }

  lemma QueueInOrder(ps: seq<Entry>)
    requires UniqueNames(ps)
    ensures NamesRankOrdered(ps, ScheduledIn(Sorted(ps)))
    ensures NoDuplicates(ScheduledIn(Sorted(ps)))
  {
    SortedIsRankOrdered(ps);
    ScheduledInOrder(ps, Sorted(ps));
  }

  function PositionsOf(ps: seq<Entry>, names: seq<string>): set<nat> {
    set k | 0 <= k < |names| :: Position(ps, names[k])
  }

  lemma {:induction false} PositionsCount(ps: seq<Entry>, names: seq<string>)
    requires NamesRankOrdered(ps, names)
    ensures |PositionsOf(ps, names)| == |names|
  {
    hide Position;
    if names != [] {
      var n := |names| - 1;
      var front := names[..n];
      PositionsCount(ps, front);
      forall k | k in PositionsOf(ps, names) ensures k in PositionsOf(ps, front) + {Position(ps, names[n])} {
        var m :| 0 <= m < |names| && Position(ps, names[m]) == k;
        assert m < n ==> front[m] == names[m];
      }
      forall k | k in PositionsOf(ps, front) ensures k in PositionsOf(ps, names) && k != Position(ps, names[n]) {
        var m :| 0 <= m < n && Position(ps, front[m]) == k;
        assert names[m] == front[m];
        assert OutranksNamed(ps, names[m], names[n]);
      }
      assert PositionsOf(ps, names) == PositionsOf(ps, front) + {Position(ps, names[n])};
    }
  }

  /** A project's place in the queue is the number of waiting projects ahead of it. */
  lemma PlaceIsRank(ps: seq<Entry>, i: nat, p: nat)
    requires UniqueNames(ps) && i < |ps| && ps[i].status.Scheduled?
    requires p < |ScheduledIn(Sorted(ps))| && ScheduledIn(Sorted(ps))[p] == ps[i].name
    ensures |RankedBefore(ps, i)| == p
  {
    var queue := ScheduledIn(Sorted(ps));
    QueueInOrder(ps);
    PositionUnique(ps, i);
    var before := queue[..p];
    forall j | j in PositionsOf(ps, before) ensures j in RankedBefore(ps, i) {
      var k :| 0 <= k < p && Position(ps, before[k]) == j;
      assert before[k] == queue[k] && OutranksNamed(ps, queue[k], queue[p]);
      var i' := QueueIsSound(ps, queue[k]);
    }
    forall j | j in RankedBefore(ps, i) ensures j in PositionsOf(ps, before) {
      var r := QueueIsComplete(ps, j);
      PositionUnique(ps, j);
      assert r > p ==> OutranksNamed(ps, queue[p], queue[r]);
      assert r < p && before[r] == queue[r];
    }
    assert PositionsOf(ps, before) == RankedBefore(ps, i);
    PositionsCount(ps, before);
  }

  /** A waiting project is started exactly when fewer waiting projects go
      before it than there are free slots. */
  lemma StartedIffRankBelowSlots(ps: seq<Entry>, slots: int, i: nat)
    requires UniqueNames(ps) && i < |ps| && ps[i].status.Scheduled?
    ensures ps[i].name in Plan(ps, slots) <==> |RankedBefore(ps, i)| < slots
  {
    var queue := ScheduledIn(Sorted(ps));
    var p := QueueIsComplete(ps, i);
    PlaceIsRank(ps, i, p);
    QueueInOrder(ps);
    if p < slots {
      assert Plan(ps, slots)[p] == ps[i].name;
    }
  }

  /** Only waiting projects are started, each once, and as many as fit: no
      slot stays free while work waits. */
  lemma PlanFillsTheSlots(ps: seq<Entry>, slots: int)
    requires UniqueNames(ps)
    ensures NoDuplicates(Plan(ps, slots))
    ensures AsSet(Plan(ps, slots)) <= NamesWith(ps, Scheduled)
    ensures |Plan(ps, slots)| == if slots <= 0 then 0 else if slots < Count(ps, Scheduled) then slots else Count(ps, Scheduled)
  {
    QueueInOrder(ps);
    var queue := ScheduledIn(Sorted(ps));
    forall n | n in AsSet(Plan(ps, slots)) ensures n in NamesWith(ps, Scheduled) {
      assert n in queue;
      var i := QueueIsSound(ps, n);
    }
    assert AsSet(queue) == NamesWith(ps, Scheduled) by {
      forall n | n in NamesWith(ps, Scheduled) ensures n in AsSet(queue) {
        var i := Holder(ps, Scheduled, n);
        var p := QueueIsComplete(ps, i);
      }
      forall n | n in AsSet(queue) ensures n in NamesWith(ps, Scheduled) {
        var i := QueueIsSound(ps, n);
      }
    }
    CountIsCardinality(ps, Scheduled);
    AsSetCount(queue);
  }

  /** No project left waiting goes before one that was started. */
  lemma NoStartedProjectIsOutranked(ps: seq<Entry>, slots: int, i: nat, j: nat)
    requires UniqueNames(ps) && i < |ps| && j < |ps|
    requires ps[i].status.Scheduled? && ps[j].status.Scheduled?
    requires ps[i].name in Plan(ps, slots) && ps[j].name !in Plan(ps, slots)
    ensures Outranks(ps, i, j)
  {
    StartedIffRankBelowSlots(ps, slots, i);
    StartedIffRankBelowSlots(ps, slots, j);
    if !Outranks(ps, i, j) {
      assert i != j;
      assert RankedBefore(ps, j) <= RankedBefore(ps, i);
      SubsetCard(RankedBefore(ps, j), RankedBefore(ps, i));
    }
  }
}
