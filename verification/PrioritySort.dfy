/** The stable sort by descending priority that orders the starting pass. */
module PrioritySort {
  import opened ProjectStatuses
  import opened ProjectLists

  /** How many leading elements of a descending list are at least as urgent as p. */
  function Ahead(es: seq<Entry>, p: int): (n: nat)
    ensures n <= |es|
    ensures forall i :: 0 <= i < n ==> es[i].priority >= p
    ensures n < |es| ==> es[n].priority < p
  {
    if es == [] || es[0].priority < p then 0 else 1 + Ahead(es[1..], p)
  }

  function Inserted(es: seq<Entry>, e: Entry): seq<Entry> {
    var n := Ahead(es, e.priority);
    es[..n] + [e] + es[n..]
  }

  function Sorted(es: seq<Entry>): (r: seq<Entry>)
    ensures |r| == |es|
  {
    if es == [] then [] else Inserted(Sorted(es[..|es| - 1]), es[|es| - 1])
  }

  predicate Descending(es: seq<Entry>) {
    forall i, j :: 0 <= i < j < |es| ==> es[i].priority >= es[j].priority
  }

  lemma InsertedKeepsDescending(es: seq<Entry>, e: Entry)
    requires Descending(es)
    ensures Descending(Inserted(es, e))
  {
  }

  lemma {:induction false} SortedDescending(es: seq<Entry>)
    ensures Descending(Sorted(es))
  {
    if es != [] {
      SortedDescending(es[..|es| - 1]);
      InsertedKeepsDescending(Sorted(es[..|es| - 1]), es[|es| - 1]);
    }
  }

  lemma InsertedAdds(es: seq<Entry>, e: Entry)
    ensures multiset(Inserted(es, e)) == multiset(es) + multiset{e}
  {
    var n := Ahead(es, e.priority);
    assert es == es[..n] + es[n..];
    assert multiset(es[..n] + [e] + es[n..]) == multiset(es[..n]) + multiset{e} + multiset(es[n..]);
  }

  lemma {:induction false} SortedIsPermutation(es: seq<Entry>)
    ensures multiset(Sorted(es)) == multiset(es)
  {
    if es != [] {
      var front, last := es[..|es| - 1], es[|es| - 1];
      SortedIsPermutation(front);
      InsertedAdds(Sorted(front), last);
      assert es == front + [last];
    }
  }

  lemma SortedMembers(es: seq<Entry>, e: Entry)
    ensures e in es <==> e in Sorted(es)
  {
  }

  lemma {:induction false} SortedKeepsUniqueNames(es: seq<Entry>)
    requires UniqueNames(es)
    ensures UniqueNames(Sorted(es))
  {
    if es != [] {
      var front, last := es[..|es| - 1], es[|es| - 1];
      SortedKeepsUniqueNames(front);
      forall i | 0 <= i < |Sorted(front)| ensures Sorted(front)[i].name != last.name {
        SortedMembers(front, Sorted(front)[i]);
      }
    }
  }

  lemma SortedPair(a: Entry, b: Entry)
    ensures Sorted([a, b]) == if a.priority >= b.priority then [a, b] else [b, a]
  {
  }

  /** The sort in place: each element in turn is swapped down past the less
      urgent ones before it. */
  method SortInPlace(a: array<Entry>)
    modifies a
    ensures a[..] == Sorted(old(a[..]))
  {
    ghost var was := a[..];
    for i := 0 to a.Length
      invariant a[..i] == Sorted(was[..i])
      invariant a[i..] == was[i..]
    {
      SortedDescending(was[..i]);
      assert a[i] == a[i..][0] == was[i..][0];
      assert was[..i + 1][..i] == was[..i];
      ghost var rest := a[i..];
      SiftDown(a, i);
      assert a[i + 1..] == rest[1..];
    }
    assert was[..|was|] == was && a[..a.Length] == a[..];
  }

  method SiftDown(a: array<Entry>, i: nat)
    requires i < a.Length && Descending(a[..i])
    modifies a
    ensures a[..i + 1] == Inserted(old(a[..i]), old(a[i]))
    ensures a[i + 1..] == old(a[i + 1..])
  {
    ghost var sorted, e, rest := a[..i], a[i], a[i + 1..];
    var j := i;
    assert a[..i + 1] == SlidTo(sorted, e, i);
    while j > 0 && a[j].priority > a[j - 1].priority
      invariant 0 <= j <= i
      invariant a[..i + 1] == SlidTo(sorted, e, j) && a[i + 1..] == rest
      invariant j < i ==> sorted[j].priority < e.priority
    {
      SlideOne(sorted, e, j);
      ghost var was := a[..i + 1];
      assert was[j] == a[j] && was[j - 1] == a[j - 1];
      a[j], a[j - 1] := a[j - 1], a[j];
      assert a[..i + 1] == was[j := was[j - 1]][j - 1 := was[j]];
      j := j - 1;
    }
    if j > 0 {
      assert a[..i + 1][j] == a[j] && a[..i + 1][j - 1] == a[j - 1];
    }
    AheadIs(sorted, e.priority, j);
  }

  /** The list with e slid in before position j. */
  function SlidTo(es: seq<Entry>, e: Entry, j: nat): seq<Entry>
    requires j <= |es|
  {
    es[..j] + [e] + es[j..]
  }

  lemma SlideOne(es: seq<Entry>, e: Entry, j: nat)
    requires 0 < j <= |es|
    ensures var s := SlidTo(es, e, j);
            s[j] == e && s[j - 1] == es[j - 1] && s[j := s[j - 1]][j - 1 := s[j]] == SlidTo(es, e, j - 1)
  {
  }

  lemma AheadIs(es: seq<Entry>, p: int, j: nat)
    requires Descending(es) && j <= |es|
    requires j > 0 ==> es[j - 1].priority >= p
    requires j < |es| ==> es[j].priority < p
    ensures Ahead(es, p) == j
  {
  }

  method SortByPriority(es: seq<Entry>) returns (r: seq<Entry>)
    ensures r == Sorted(es)
  {
    var a := new Entry[|es|](i requires 0 <= i < |es| => es[i]);
    assert a[..] == es;
    SortInPlace(a);
    r := a[..];
  }
}
