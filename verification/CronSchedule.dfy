/** The closure a RenovateJob's cron schedule runs: discover, filter forks, reconcile, schedule everything, sync webhooks. */
module CronSchedule {
  import opened Options
  import opened Sequences
  import opened ProjectStatuses
  import opened ProjectLists
  import opened RenovateJobs
  import opened OptimisticWrites
  import opened ApiServers
  import opened ForkFilter
  import opened WebhookSync
  import opened WebhookSyncers

  /** Forks are not filtered, or no client can be made, or each project's lookup is answered. */
  datatype ForkSetting = KeepForks | NoClient | SkipForks(answers: seq<ForkFilter.Lookup>)

  /** The projects a discovery goes on with. */
  function Selected(projects: seq<string>, forks: ForkSetting): seq<string>
    requires forks.SkipForks? ==> |forks.answers| == |projects|
  {
    if forks.SkipForks? then Kept(projects, forks.answers) else projects
  }

  /** All projects, or those not known to be forks, in the order discovered. */
  lemma SelectedInFull(projects: seq<string>, forks: ForkSetting) returns (positions: seq<nat>)
    requires forks.SkipForks? ==> |forks.answers| == |projects|
    ensures !forks.SkipForks? ==> Selected(projects, forks) == projects
    ensures forks.SkipForks? ==>
      && Picked(Selected(projects, forks), projects, positions)
      && forall k :: 0 <= k < |projects| ==>
           (k in positions <==> forks.answers[k].LookupFailed? || forks.answers[k].NoFork?)
  {
    positions := [];
    if forks.SkipForks? {
      positions := KeptPositions(projects, forks.answers);
    }
  }

  lemma {:induction false} KeptIsDuplicateFree(projects: seq<string>, answers: seq<ForkFilter.Lookup>)
    requires |projects| == |answers| && NoDuplicates(projects)
    ensures NoDuplicates(Kept(projects, answers))
    ensures forall p :: p in Kept(projects, answers) ==> p in projects
  {
    if projects != [] {
      var n := |projects| - 1;
      KeptIsDuplicateFree(projects[..n], answers[..n]);
      assert projects == projects[..n] + [projects[n]];
      forall i | 0 <= i < |Kept(projects[..n], answers[..n])| ensures Kept(projects[..n], answers[..n])[i] != projects[n] {
        assert Kept(projects[..n], answers[..n])[i] in projects[..n];
      }
    }
  }

  /** Whatever list the cron batch meets, it leaves every project waiting or running. */
  lemma CronBatchLeavesOnlyWaitingOrRunning(ps: seq<Entry>, now: int)
    ensures forall k :: 0 <= k < |ps| ==>
      Apply(CRON_BATCH, ps, now)[k].status == if ps[k].status.Running? then Running else Scheduled
  {
  }

  ghost predicate AllWaitingOrRunning(ps: seq<Entry>) {
    forall k :: 0 <= k < |ps| ==> ps[k].status.Scheduled? || ps[k].status.Running?
  }

  lemma CommittedBatch(initial: seq<Entry>, log: seq<OptimisticWrites.Commit>, k: nat)
    requires Sequential(initial, log) && k < |log|
    ensures log[k].op == CRON_BATCH ==> AllWaitingOrRunning(log[k].state)
  {
    if log[k].op == CRON_BATCH {
      CronBatchLeavesOnlyWaitingOrRunning(StateAt(initial, log, k), log[k].now);
    }
  }

  /** The two calls are made under numbers of their own, so their commits can
      be told apart. A failed discovery changes nothing; the batch is only
      attempted after the reconcile has committed; a committed reconcile carries
      the selected projects, and is harmless if discovery named none twice;
      right after the batch's commit every project waits or runs; and only then
      webhooks are synced, whether or not the batch succeeded. */
  method RunSchedule(server: ApiServer, discovered: Option<seq<string>>, forks: ForkSetting,
                     reconcile: nat, batch: nat, someone: nat,
                     attempts: seq<Attempt>, batchAttempts: seq<Attempt>, metrics: MetricStore,
                     syncer: WebhookSyncer?, search: Option<seq<Repository>>, answers: string -> Answers)
    returns (reconciled: bool, scheduled: bool, state: Option<map<string, int>>)
    requires server.Valid() && reconcile != batch && someone !in {reconcile, batch}
    requires discovered.Some? && forks.SkipForks? ==> |forks.answers| == |discovered.value|
    modifies server, metrics, if syncer != null then {syncer, syncer.server} else {}
    ensures server.Valid() && old(server.log) <= server.log
    ensures discovered.None? || forks.NoClient? ==> !reconciled && server.log == old(server.log)
    ensures reconciled <==> discovered.Some? && !forks.NoClient? && Prevails(attempts, |old(server.log)|)
    ensures scheduled <==> reconciled && Prevails(batchAttempts, 1)
    ensures reconciled ==> CommitsOf(server.log, reconcile) == CommitsOf(old(server.log), reconcile) + 1
    ensures scheduled ==> reconciled && CommitsOf(server.log, batch) == CommitsOf(old(server.log), batch) + 1
    ensures CommitsOf(server.log, batch) != CommitsOf(old(server.log), batch) ==> reconciled
    ensures forall k :: |old(server.log)| <= k < |server.log| && server.log[k].caller == reconcile ==>
      && discovered.Some? && server.log[k].op == Reconcile(Selected(discovered.value, forks))
      && (NoDuplicates(discovered.value) ==> Foreign(server.log[k].op))
    ensures forall k :: |old(server.log)| <= k < |server.log| && server.log[k].caller == batch ==>
      server.log[k].op == CRON_BATCH && AllWaitingOrRunning(server.log[k].state)
    ensures syncer != null && reconciled && search.Some? ==>
      && state == Some(syncer.managedRepos)
      && syncer.managedRepos ==
           FinalManaged(old(syncer.managedRepos), old(syncer.server.hooks), search.value, syncer.webhookURL, answers)
      && syncer.server.hooks ==
           FinalHooks(old(syncer.managedRepos), old(syncer.server.hooks), search.value, syncer.webhookURL, answers)
    ensures syncer != null && !(reconciled && search.Some?) ==>
      state.None? && syncer.managedRepos == old(syncer.managedRepos) && syncer.server.hooks == old(syncer.server.hooks)
  {
    hide Apply, DroppedNames, CommitsOf, Sequential, Kept, AllWaitingOrRunning, FinalManaged, FinalHooks, Prevails;
    reconciled, scheduled, state := false, false, None;
    if discovered.None? || forks.NoClient? {
      return;
    }
    var projects := discovered.value;
    if forks.SkipForks? {
      var calls, moves;
      projects, calls, moves := FilterForks(projects, forks.answers);
      SelectedIsDuplicateFree(discovered.value, forks);
    }
    reconciled := server.RetryOnConflict(Reconcile(projects), reconcile, someone, attempts, metrics);
    ghost var mid := server.log;
    CommitsOfOthers(old(server.log), mid, batch);
    if !reconciled {
      return;
    }
    assert mid != [];
    PrevailsAtAnyLength(batchAttempts, 1, |mid|);
    scheduled := server.RetryOnConflict(CRON_BATCH, batch, someone, batchAttempts, metrics);
    CommitsOfOthers(mid, server.log, reconcile);
    forall k | |old(server.log)| <= k < |server.log| && server.log[k].caller == batch
      ensures server.log[k].op == CRON_BATCH && AllWaitingOrRunning(server.log[k].state)
    {
      CommittedBatch(server.initial, server.log, k);
    }
    forall k | |old(server.log)| <= k < |server.log| && server.log[k].caller == reconcile
      ensures server.log[k].op == Reconcile(projects)
    {
      assert k < |mid| && server.log[k] == mid[k];
    }
    if syncer != null {
      state := syncer.RunOnce(search, answers);
    }
  }

  lemma SelectedIsDuplicateFree(projects: seq<string>, forks: ForkSetting)
    requires forks.SkipForks? ==> |forks.answers| == |projects|
    ensures NoDuplicates(projects) ==> NoDuplicates(Selected(projects, forks))
  {
    if forks.SkipForks? && NoDuplicates(projects) {
      KeptIsDuplicateFree(projects, forks.answers);
    }
  }
}
