/** The page loop of the Forgejo client, which collects a list served in pages. */
module Paging {
  import opened Options

  const LIMIT := 50

  function Min(a: nat, b: nat): nat { if a < b then a else b }

  /** A server slicing an unchanging list into pages of the given size; pages count from 1. */
  function Page<T>(list: seq<T>, size: nat, page: nat): seq<T>
    requires page >= 1
  {
    list[Min((page - 1) * size, |list|)..Min(page * size, |list|)]
  }

  /** What a server with a page cap answers to a request for LIMIT items a page. */
  function Served(cap: nat): nat { Min(LIMIT, cap) }

  /** The requests the loop makes when every page arrives. */
  function RequestsFor(length: nat, cap: nat): nat {
    if cap < LIMIT then 1 else length / LIMIT + 1
  }

  predicate Arrives(length: nat, cap: nat, fails: nat -> bool) {
    forall page :: 1 <= page <= RequestsFor(length, cap) ==> !fails(page)
  }

  /** The part of the list the loop gets to see: a page shorter than asked for ends it. */
  function Collected<T>(list: seq<T>, cap: nat): seq<T> {
    if cap >= LIMIT then list else list[..Min(cap, |list|)]
  }

  lemma PagesConcatenate<T>(list: seq<T>, page: nat)
    requires page >= 1
    ensures list[..Min((page - 1) * LIMIT, |list|)] + Page(list, LIMIT, page) == list[..Min(page * LIMIT, |list|)]
  {
  }

  /** In numbers, with the fifty items a page that the client asks for. */
  lemma PageNumbers<T>(list: seq<T>, cap: nat, fails: nat -> bool)
    ensures RequestsFor(|list|, cap) == if cap < 50 then 1 else |list| / 50 + 1
    ensures Arrives(|list|, cap, fails) <==> forall p :: 1 <= p <= RequestsFor(|list|, cap) ==> !fails(p)
    ensures Collected(list, cap) == if cap >= 50 || |list| <= cap then list else list[..cap]
  {
  }

  /** The loop of both list calls. `fails` tells which request fails, by page.
      With pages as large as asked for it returns the whole list in order, in
      one request more than there are full pages; a server with a smaller cap
      ends it after the first page, so the list arrives whole exactly when the
      cap reaches the limit or the list fits into one page. */
  method FetchAll<T>(list: seq<T>, cap: nat, fails: nat -> bool) returns (all: Option<seq<T>>, requests: nat)
    ensures all.Some? <==> Arrives(|list|, cap, fails)
    ensures all.Some? ==> requests == RequestsFor(|list|, cap)
    ensures all.Some? ==> all.value == Collected(list, cap)
    ensures all.Some? ==> (all.value == list <==> cap >= LIMIT || |list| <= cap)
    ensures requests <= RequestsFor(|list|, cap)
  {
    var items: seq<T> := [];
    var page := 1;
    requests := 0;
    while true
      invariant page >= 1 && requests == page - 1
      invariant cap < LIMIT ==> page == 1
      invariant (page - 1) * LIMIT <= |list|
      invariant items == list[..(page - 1) * LIMIT]
      invariant forall p :: 1 <= p < page ==> !fails(p)
      decreases |list| + LIMIT - page * LIMIT
    {
      EnoughRequests(|list|, cap, page);
      requests := requests + 1;
      if fails(page) {
        return None, requests;
      }
      var data := Page(list, Served(cap), page);
      if |data| == 0 {
        break;
      }
      items := items + data;
      if |data| < LIMIT {
        break;
      }
      PagesConcatenate(list, page);
      page := page + 1;
    }
    all := Some(items);
  }

  lemma EnoughRequests(length: nat, cap: nat, page: nat)
    requires page >= 1 && (page - 1) * LIMIT <= length && (cap < LIMIT ==> page == 1)
    ensures page <= RequestsFor(length, cap)
    ensures cap >= LIMIT && length < page * LIMIT ==> page == RequestsFor(length, cap)
  {
  }
}
