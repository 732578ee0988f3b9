/** The waiting projects of a list in order, and the ones a number of free slots reaches. */
module StartQueue {
  import opened Sequences
  import opened ProjectStatuses
  import opened ProjectLists
  import opened PrioritySort

  function ScheduledIn(es: seq<Entry>): seq<string> {
    if es == [] then []
    else
      var last := es[|es| - 1];
      ScheduledIn(es[..|es| - 1]) + if last.status.Scheduled? then [last.name] else []
  }

  function FirstOf(names: seq<string>, slots: int): seq<string> {
    if slots <= 0 then [] else if slots < |names| then names[..slots] else names
  }

  /** The projects a tick starts, in order, when `slots` remain after its first pass. */
  function Plan(snapshot: seq<Entry>, slots: int): seq<string> {
    FirstOf(ScheduledIn(Sorted(snapshot)), slots)
  }

  lemma {:induction false} ScheduledInNames(es: seq<Entry>, n: string)
    requires n in ScheduledIn(es)
    ensures exists k :: 0 <= k < |es| && es[k].name == n && es[k].status.Scheduled?
  {
    var front := es[..|es| - 1];
    if n in ScheduledIn(front) {
      ScheduledInNames(front, n);
      var k :| 0 <= k < |front| && front[k].name == n && front[k].status.Scheduled?;
      assert es[k] == front[k];
    } else {
      assert es[|es| - 1].name == n;
    }
  }

  lemma {:induction false} ScheduledInCons(es: seq<Entry>)
    requires es != []
    ensures ScheduledIn(es) == (if es[0].status.Scheduled? then [es[0].name] else []) + ScheduledIn(es[1..])
  {
    var front := es[..|es| - 1];
    if front != [] {
      ScheduledInCons(front);
      assert es[1..][..|es| - 2] == front[1..];
    }
  }

  lemma PlannedAreScheduled(snapshot: seq<Entry>, slots: int)
    requires UniqueNames(snapshot)
    ensures AsSet(Plan(snapshot, slots)) !! NamesWith(snapshot, Running)
  {
    forall n | n in AsSet(Plan(snapshot, slots)) ensures n !in NamesWith(snapshot, Running) {
      ScheduledInNames(Sorted(snapshot), n);
      var k :| 0 <= k < |snapshot| && Sorted(snapshot)[k].name == n && Sorted(snapshot)[k].status.Scheduled?;
      SortedMembers(snapshot, Sorted(snapshot)[k]);
    }
  }

  lemma FirstOfCons(first: string, rest: seq<string>, slots: int)
    requires slots > 0
    ensures AsSet(FirstOf([first] + rest, slots)) == {first} + AsSet(FirstOf(rest, slots - 1))
  {
    assert FirstOf([first] + rest, slots) == [first] + FirstOf(rest, slots - 1);
    AsSetConcat([first], FirstOf(rest, slots - 1));
    assert [first][0] == first;
  }

  /** Extra slots reach at most as many extra names. */
  lemma FirstOfGrows(names: seq<string>, slots: int, extra: nat)
    ensures AsSet(FirstOf(names, slots)) <= AsSet(FirstOf(names, slots + extra))
    ensures |AsSet(FirstOf(names, slots + extra)) - AsSet(FirstOf(names, slots))| <= extra
  {
    var few, many := FirstOf(names, slots), FirstOf(names, slots + extra);
    var more := many[|few|..];
    assert many == few + more;
    AsSetConcat(few, more);
    AsSetBound(more);
    SubsetCard(AsSet(many) - AsSet(few), AsSet(more));
  }

  lemma FirstOfSubset(names: seq<string>, slots: int)
    ensures AsSet(FirstOf(names, slots)) <= AsSet(names)
  {
  }
}
