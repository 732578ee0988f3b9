/** The retry loop around a manager operation, against a server that others write to. */
module ApiServers {
  import opened ProjectStatuses
  import opened ProjectLists
  import opened RenovateJobs
  import opened OptimisticWrites

  datatype LoadAnswer = LoadFails | LoadsVersion(lag: nat)
  datatype WriteAnswer = WriteFails | AnswerLost | Answered(reloadFails: bool)

  /** One attempt: how far the load lags, what others commit before the
      write, and how the write and the reload are answered. */
  datatype Attempt = Attempt(load: LoadAnswer, others: seq<(Op, int)>, now: int, write: WriteAnswer)

  datatype End = Success | Failure | Conflict

  /** The object loaded is no longer the stored one when it is written back:
      the load lagged behind a history of this length, or others have committed. */
  predicate Stale(a: Attempt, length: nat) {
    a.others != [] || (a.load.LoadsVersion? && a.load.lag > 0 && length > 0)
  }

  predicate Conflicts(a: Attempt, length: nat) {
    a.load.LoadsVersion? && !a.write.WriteFails? && Stale(a, length)
  }

  predicate Succeeds(a: Attempt, length: nat) {
    a.load.LoadsVersion? && a.write == Answered(false) && !Stale(a, length)
  }

  /** What others commit during the first n attempts. */
  function OthersBefore(attempts: seq<Attempt>, n: nat): nat
    requires n <= |attempts|
  {
    if n == 0 then 0 else OthersBefore(attempts, n - 1) + |attempts[n - 1].others|
  }

  /** Some attempt succeeds after nothing but conflicts. */
  ghost predicate Prevails(attempts: seq<Attempt>, length: nat) {
    exists n: nat :: n < |attempts| && PrevailsAt(attempts, length, n)
  }

  ghost predicate PrevailsAt(attempts: seq<Attempt>, length: nat, n: nat)
    requires n < |attempts|
  {
    && Succeeds(attempts[n], length + OthersBefore(attempts, n))
    && forall k :: 0 <= k < n ==> Conflicts(attempts[k], length + OthersBefore(attempts, k))
  }

  predicate EndsAs(end: End, a: Attempt, length: nat) {
    (end.Conflict? <==> Conflicts(a, length)) && (end.Success? <==> Succeeds(a, length))
  }

  /** The loop has come to attempt i, the last one ending so. */
  ghost predicate Reached(attempts: seq<Attempt>, length: nat, i: nat, end: End) {
    && i <= |attempts| && (!end.Conflict? ==> i > 0)
    && (forall k :: 0 <= k < i - 1 ==> Conflicts(attempts[k], length + OthersBefore(attempts, k)))
    && (i > 0 ==> EndsAs(end, attempts[i - 1], length + OthersBefore(attempts, i - 1)))
  }

  lemma NothingReached(attempts: seq<Attempt>, length: nat)
    ensures Reached(attempts, length, 0, Conflict) && OthersBefore(attempts, 0) == 0
  {
  }

  lemma ReachedOneMore(attempts: seq<Attempt>, length: nat, i: nat, end: End)
    requires i < |attempts| && Reached(attempts, length, i, Conflict)
    requires EndsAs(end, attempts[i], length + OthersBefore(attempts, i))
    ensures Reached(attempts, length, i + 1, end)
    ensures OthersBefore(attempts, i + 1) == OthersBefore(attempts, i) + |attempts[i].others|
  {
    hide Conflicts, Succeeds;
  }

  lemma LoopPrevails(attempts: seq<Attempt>, length: nat, i: nat, end: End)
    requires Reached(attempts, length, i, end) && (i == |attempts| || !end.Conflict?)
    ensures end.Success? <==> Prevails(attempts, length)
  {
    hide Conflicts, Succeeds, OthersBefore;
    if i > 0 && !end.Conflict? {
      var last := length + OthersBefore(attempts, i - 1);
      NotBoth(attempts[i - 1], last);
      assert end.Success? ==> PrevailsAt(attempts, length, i - 1);
      forall n: nat | n < |attempts| && Succeeds(attempts[n], length + OthersBefore(attempts, n))
        && (forall k :: 0 <= k < n ==> Conflicts(attempts[k], length + OthersBefore(attempts, k)))
        ensures n == i - 1
      {
        NotBoth(attempts[n], length + OthersBefore(attempts, n));
      }
    } else {
      forall n: nat | n < |attempts| ensures !Succeeds(attempts[n], length + OthersBefore(attempts, n)) {
        NotBoth(attempts[n], length + OthersBefore(attempts, n));
      }
    }
  }

  lemma NotBoth(a: Attempt, length: nat)
    ensures !(Conflicts(a, length) && Succeeds(a, length))
  {
  }

  /** Attempt by attempt: a load that lags, or commits of others meanwhile,
      make a write conflict; only a conflict is followed by another attempt. */
  lemma PrevailsInFull(attempts: seq<Attempt>, length: nat, n: nat)
    requires n < |attempts|
    ensures PrevailsAt(attempts, length, n) <==>
      && attempts[n].load.LoadsVersion? && attempts[n].write == Answered(false)
      && attempts[n].others == [] && (attempts[n].load.lag == 0 || (n == 0 && length == 0))
      && forall k :: 0 <= k < n ==>
           && attempts[k].load.LoadsVersion? && !attempts[k].write.WriteFails?
           && (attempts[k].others != [] || (attempts[k].load.lag > 0 && (k > 0 || length > 0)))
  {
    NothingBefore(attempts);
    var grows := attempts[0].others != [] || length > 0;
    forall k: nat | k <= n ensures k > 0 && grows ==> length + OthersBefore(attempts, k) > 0 {
      if k > 0 && grows {
        HistoryGrown(attempts, length, k);
      }
    }
    hide OthersBefore;
    assert n > 0 && Conflicts(attempts[0], length + OthersBefore(attempts, 0)) ==> grows;
    forall k: nat | k <= n && (k > 0 ==> grows)
      ensures Stale(attempts[k], length + OthersBefore(attempts, k)) <==>
        attempts[k].others != [] ||
        (attempts[k].load.LoadsVersion? && attempts[k].load.lag > 0 && (k > 0 || length > 0))
    {
    }
  }

  lemma NothingBefore(attempts: seq<Attempt>)
    ensures OthersBefore(attempts, 0) == 0
  {
  }

  lemma {:induction false} HistoryGrown(attempts: seq<Attempt>, length: nat, n: nat)
    requires 0 < n <= |attempts| && (attempts[0].others != [] || length > 0)
    ensures length + OthersBefore(attempts, n) > 0
  {
    if n > 1 {
      HistoryGrown(attempts, length, n - 1);
    } else {
      assert OthersBefore(attempts, 1) == OthersBefore(attempts, 0) + |attempts[0].others|;
    }
  }

  /** Beyond that there is a history, its length does not matter. */
  lemma PrevailsAtAnyLength(attempts: seq<Attempt>, a: nat, b: nat)
    requires a > 0 && b > 0
    ensures Prevails(attempts, a) <==> Prevails(attempts, b)
  {
    forall k | 0 <= k < |attempts|
      ensures Succeeds(attempts[k], a + OthersBefore(attempts, k)) == Succeeds(attempts[k], b + OthersBefore(attempts, k))
      ensures Conflicts(attempts[k], a + OthersBefore(attempts, k)) == Conflicts(attempts[k], b + OthersBefore(attempts, k))
    {
    }
    hide Succeeds, Conflicts, OthersBefore;
    forall n: nat | n < |attempts| ensures PrevailsAt(attempts, a, n) <==> PrevailsAt(attempts, b, n) {
    }
  }

  class ApiServer {
    const initial: seq<Entry>
    var log: seq<OptimisticWrites.Commit>

    ghost predicate Valid()
      reads this
    {
      Sequential(initial, log)
    }

    function Stored(): seq<Entry>
      reads this
    {
      StateAt(initial, log, |log|)
    }

    constructor (initial: seq<Entry>)
      ensures Valid() && Stored() == initial && log == []
    {
      this.initial, log := initial, [];
    }

    method Append(op: Op, caller: nat, now: int)
      requires Valid()
      modifies this
      ensures Valid()
      ensures log == old(log) + [OptimisticWrites.Commit(Apply(op, old(Stored()), now), op, caller, now)]
    {
      SequentialSnoc(initial, log, op, caller, now);
      log := log + [OptimisticWrites.Commit(Apply(op, Stored(), now), op, caller, now)];
    }

    method OthersCommit(others: seq<(Op, int)>, someone: nat, ghost caller: nat)
      requires Valid() && someone != caller
      modifies this
      ensures Valid() && old(log) <= log
      ensures CommitsOf(log, caller) == CommitsOf(old(log), caller)
      ensures forall k :: |old(log)| <= k < |log| ==> log[k].caller == someone
      ensures |log| == |old(log)| + |others|
      ensures forall k :: 0 <= k < |others| ==>
        log[|old(log)| + k].op == others[k].0 && log[|old(log)| + k].now == others[k].1
    {
      hide Apply, Sequential, CommitsOf;
      for i := 0 to |others|
        invariant Valid() && old(log) <= log
        invariant CommitsOf(log, caller) == CommitsOf(old(log), caller)
        invariant forall k :: |old(log)| <= k < |log| ==> log[k].caller == someone
        invariant |log| == |old(log)| + i
        invariant forall k :: 0 <= k < i ==> log[|old(log)| + k].op == others[k].0 && log[|old(log)| + k].now == others[k].1
      {
        ghost var was := log;
        Append(others[i].0, someone, others[i].1);
        CommitsOfSnoc(was, log[|was|], caller);
      }
    }

    /** One attempt: load, transform, write back if the version still matches. */
    method TryOnce(op: Op, caller: nat, someone: nat, attempt: Attempt, metrics: MetricStore) returns (end: End)
      requires Valid() && someone != caller
      modifies this, metrics
      ensures Valid() && old(log) <= log
      ensures CommitsOf(log, caller) <= CommitsOf(old(log), caller) + 1
      ensures end.Success? ==> CommitsOf(log, caller) == CommitsOf(old(log), caller) + 1
      ensures end.Conflict? ==> CommitsOf(log, caller) == CommitsOf(old(log), caller)
      ensures forall k :: |old(log)| <= k < |log| ==> MetricsDropped(log, k, op, caller, metrics.deleted)
      ensures forall k :: |old(log)| <= k < |log| ==>
        log[k].caller in {caller, someone} && (log[k].caller == caller ==> log[k].op == op)
      ensures end.Conflict? ==> forall k :: |old(log)| <= k < |log| ==> log[k].caller != caller
      ensures forall before :: SparesDiscovered(op, before, old(metrics.deleted)) ==>
        SparesDiscovered(op, before, metrics.deleted)
      ensures !op.Reconcile? ==> metrics.deleted == old(metrics.deleted)
      ensures var late := attempt.others != [] || (attempt.load.LoadsVersion? && attempt.load.lag > 0 && old(log) != []);
              var writes := attempt.load.LoadsVersion? && !attempt.write.WriteFails?;
              && end == (if !writes then Failure else if late then Conflict
                         else if attempt.write == Answered(false) then Success else Failure)
              && |log| == |old(log)| + (if attempt.load.LoadsVersion? then |attempt.others| else 0)
                          + (if writes && !late then 1 else 0)
              && EndsAs(end, attempt, |old(log)|)
              && (writes && !late ==> log[|log| - 1].op == op && log[|log| - 1].caller == caller
                                      && log[|log| - 1].now == attempt.now)
    {
      hide Apply, DroppedNames, SparesDiscovered, Sequential, CommitsOf;
      if attempt.load.LoadFails? {
        return Failure;
      }
      var version := if attempt.load.lag <= |log| then |log| - attempt.load.lag else 0;
      var renovateJob := new RenovateJob(StateAt(initial, log, version), version);
      forall before | SparesDiscovered(op, before, metrics.deleted)
        ensures SparesDiscovered(op, before, metrics.deleted + DroppedNames(op, renovateJob.projects))
      {
        DroppedAreNotDiscovered(op, renovateJob.projects, before, metrics.deleted);
      }
      renovateJob.Transform(op, attempt.now, metrics);
      OthersCommit(attempt.others, someone, caller);
      if attempt.write.WriteFails? {
        return Failure;
      }
      if renovateJob.version != |log| {
        return Conflict;
      }
      ghost var was := log;
      Append(op, caller, attempt.now);
      CommitsOfSnoc(was, log[|was|], caller);
      assert StateAt(initial, log, |was|) == StateAt(initial, was, |was|);
      assert MetricsDropped(log, |was|, op, caller, metrics.deleted);
      return if attempt.write.Answered? && !attempt.write.reloadFails then Success else Failure;
    }

    /** Run op as the manager does. Whatever interferes, the history stays
        sequential and keeps its past; success means exactly one commit of op,
        an error at most one; and the metrics of a committed reconcile are gone
        for every dropped name, and at no attempt for a discovered one. */
    method RetryOnConflict(op: Op, caller: nat, someone: nat, attempts: seq<Attempt>, metrics: MetricStore)
      returns (ok: bool)
      requires Valid() && someone != caller
      modifies this, metrics
      ensures Valid() && old(log) <= log
      ensures CommitsOf(log, caller) <= CommitsOf(old(log), caller) + 1
      ensures ok ==> CommitsOf(log, caller) == CommitsOf(old(log), caller) + 1
      ensures forall k :: |old(log)| <= k < |log| ==> MetricsDropped(log, k, op, caller, metrics.deleted)
      ensures forall k :: |old(log)| <= k < |log| ==>
        log[k].caller in {caller, someone} && (log[k].caller == caller ==> log[k].op == op)
      ensures SparesDiscovered(op, old(metrics.deleted), metrics.deleted)
      ensures ok <==> Prevails(attempts, |old(log)|)
      ensures op.Reconcile? ==> forall k, i ::
        |old(log)| <= k < |log| && log[k].caller == caller && 0 <= i < |StateAt(initial, log, k)| ==>
          StateAt(initial, log, k)[i].name in op.discovered || StateAt(initial, log, k)[i].name in metrics.deleted
      ensures !op.Reconcile? ==> metrics.deleted == old(metrics.deleted)
      ensures op.Reconcile? ==> forall n :: n in op.discovered && n in metrics.deleted ==> n in old(metrics.deleted)
    {
      hide Apply, DroppedNames, CommitsOf, Sequential, SparesDiscovered, StateAt, Prevails, EndsAs,
        Reached, OthersBefore, Stale;
      SparesTheSame(op, metrics.deleted);
      NothingReached(attempts, |log|);
      var end := Conflict;
      var i := 0;
      while i < |attempts| && end.Conflict?
        invariant Valid() && old(log) <= log
        invariant CommitsOf(log, caller) <= CommitsOf(old(log), caller) + 1
        invariant end.Success? ==> CommitsOf(log, caller) == CommitsOf(old(log), caller) + 1
        invariant end.Conflict? ==> CommitsOf(log, caller) == CommitsOf(old(log), caller)
        invariant end.Conflict? ==> forall k :: |old(log)| <= k < |log| ==> log[k].caller != caller
        invariant forall k :: |old(log)| <= k < |log| ==> MetricsDropped(log, k, op, caller, metrics.deleted)
        invariant forall k :: |old(log)| <= k < |log| ==>
          log[k].caller in {caller, someone} && (log[k].caller == caller ==> log[k].op == op)
        invariant SparesDiscovered(op, old(metrics.deleted), metrics.deleted)
        invariant !op.Reconcile? ==> metrics.deleted == old(metrics.deleted)
        invariant i <= |attempts| && Reached(attempts, |old(log)|, i, end)
        invariant end.Conflict? ==> |log| == |old(log)| + OthersBefore(attempts, i)
      {
        end := TryOnce(op, caller, someone, attempts[i], metrics);
        ReachedOneMore(attempts, |old(log)|, i, end);
        i := i + 1;
      }
      ok := end.Success?;
      LoopPrevails(attempts, |old(log)|, i, end);
      SparedByDeletion(op, old(metrics.deleted), metrics.deleted);
      DroppedAreDeleted(op, caller, |old(log)|, metrics.deleted);
    }

    lemma DroppedAreDeleted(op: Op, caller: nat, since: nat, deleted: set<string>)
      requires since <= |log| && forall k :: since <= k < |log| ==> MetricsDropped(log, k, op, caller, deleted)
      ensures op.Reconcile? ==> forall k, i ::
        since <= k < |log| && log[k].caller == caller && 0 <= i < |StateAt(initial, log, k)| ==>
          StateAt(initial, log, k)[i].name in op.discovered || StateAt(initial, log, k)[i].name in deleted
    {
      if op.Reconcile? {
        forall k, i | since <= k < |log| && log[k].caller == caller && 0 <= i < |StateAt(initial, log, k)|
          && StateAt(initial, log, k)[i].name !in op.discovered
          ensures StateAt(initial, log, k)[i].name in deleted
        {
          assert MetricsDropped(log, k, op, caller, deleted);
          NotDiscoveredIsDropped(op, StateAt(initial, log, k), i);
        }
      }
    }

    /** If commit k is the caller's own, every metric its reconcile drops is deleted. */
    ghost predicate MetricsDropped(log: seq<OptimisticWrites.Commit>, k: nat, op: Op, caller: nat, deleted: set<string>)
      requires k < |log|
    {
      log[k].caller == caller ==> DroppedNames(op, StateAt(initial, log, k)) <= deleted
    }
  }

  /** Metrics newly deleted belong to no discovered project. */
  ghost predicate SparesDiscovered(op: Op, before: set<string>, after: set<string>) {
    op.Reconcile? ==> forall n :: n in after && n !in before ==> n !in op.discovered
  }

  lemma SparedByDeletion(op: Op, before: set<string>, after: set<string>)
    requires SparesDiscovered(op, before, after)
    ensures op.Reconcile? ==> forall n :: n in op.discovered && n in after ==> n in before
  {
  }

  lemma SparesTheSame(op: Op, deleted: set<string>)
    ensures SparesDiscovered(op, deleted, deleted)
  {
  }

  lemma NotDiscoveredIsDropped(op: Op, ps: seq<Entry>, i: nat)
    requires op.Reconcile? && i < |ps| && ps[i].name !in op.discovered
    ensures ps[i].name in DroppedNames(op, ps)
  {
  }

  lemma DroppedAreNotDiscovered(op: Op, ps: seq<Entry>, before: set<string>, after: set<string>)
    requires SparesDiscovered(op, before, after)
    ensures SparesDiscovered(op, before, after + DroppedNames(op, ps))
  {
  }
}
