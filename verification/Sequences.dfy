/** Small facts about sequences of distinct elements. */
module Sequences {
  predicate NoDuplicates<T(==)>(s: seq<T>) {
    forall i, j :: 0 <= i < j < |s| ==> s[i] != s[j]
  }

  /** Positions below n in increasing order. */
  predicate Increasing(positions: seq<nat>, n: nat) {
    && (forall a, b :: 0 <= a < b < |positions| ==> positions[a] < positions[b])
    && (forall a :: 0 <= a < |positions| ==> positions[a] < n)
  }

  lemma IncreasingSnoc(positions: seq<nat>, n: nat)
    requires Increasing(positions, n)
    ensures Increasing(positions, n + 1) && Increasing(positions + [n], n + 1) && n !in positions
    ensures forall k: nat :: k in positions + [n] <==> k in positions || k == n
  {
  }

  /** The elements at these positions, in order. */
  predicate Picked<T(==)>(out: seq<T>, source: seq<T>, positions: seq<nat>) {
    && Increasing(positions, |source|) && |out| == |positions|
    && forall a :: 0 <= a < |positions| ==> out[a] == source[positions[a]]
  }

  lemma PickedSnoc<T>(out: seq<T>, source: seq<T>, positions: seq<nat>, x: T)
    requires Picked(out, source, positions)
    ensures Picked(out, source + [x], positions)
    ensures Picked(out + [x], source + [x], positions + [|source|])
    ensures forall k: nat :: k in positions + [|source|] <==> k in positions || k == |source|
  {
  }

  function AsSet<T>(s: seq<T>): set<T> {
    set i | 0 <= i < |s| :: s[i]
  }

  lemma AsSetSnoc<T>(s: seq<T>, last: T)
    ensures AsSet(s + [last]) == AsSet(s) + {last}
  {
    var longer := s + [last];
    assert longer[|s|] == last;
    assert forall i :: 0 <= i < |s| ==> longer[i] == s[i];
  }

  lemma AsSetConcat<T>(a: seq<T>, b: seq<T>)
    ensures AsSet(a + b) == AsSet(a) + AsSet(b)
  {
    assert forall i :: 0 <= i < |a| ==> (a + b)[i] == a[i];
    assert forall i :: 0 <= i < |b| ==> (a + b)[|a| + i] == b[i];
  }

  lemma {:induction false} AsSetCount<T>(s: seq<T>)
    requires NoDuplicates(s)
    ensures |AsSet(s)| == |s|
  {
    if s != [] {
      var n := |s| - 1;
      AsSetCount(s[..n]);
      AsSetSnoc(s[..n], s[n]);
      assert s == s[..n] + [s[n]];
    }
  }

  lemma {:induction false} AsSetBound<T>(s: seq<T>)
    ensures |AsSet(s)| <= |s|
  {
    if s != [] {
      var n := |s| - 1;
      AsSetBound(s[..n]);
      AsSetSnoc(s[..n], s[n]);
      assert s == s[..n] + [s[n]];
    }
  }

  lemma NoDuplicatesConcat<T>(a: seq<T>, b: seq<T>)
    requires NoDuplicates(a) && NoDuplicates(b) && AsSet(a) !! AsSet(b)
    ensures NoDuplicates(a + b)
  {
    forall i, j | 0 <= i < j < |a + b| ensures (a + b)[i] != (a + b)[j] {
      if i < |a| <= j {
        assert a[i] in AsSet(a) && b[j - |a|] in AsSet(b);
      }
    }
  }

  lemma {:induction false} SubsetCard<T>(a: set<T>, b: set<T>)
    requires a <= b
    ensures |a| <= |b|
  {
    if a != {} {
      var x :| x in a;
      SubsetCard(a - {x}, b - {x});
    }
  }
}
