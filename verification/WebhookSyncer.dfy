/** The Forgejo webhook syncer: the loops of one cycle against a server with per-repository answers. */
module WebhookSyncers {
  import opened Options
  import opened Paging
  import opened WebhookSync

  /** The remote side: the hooks of every existing repository, and the change requests received. */
  class ForgejoServer {
    var hooks: map<string, seq<Hook>>
    var createRequests: set<string>
    var deleteRequests: set<(string, int)>

    constructor (hooks: map<string, seq<Hook>>)
      ensures this.hooks == hooks && createRequests == {} && deleteRequests == {}
    {
      this.hooks, createRequests, deleteRequests := hooks, {}, {};
    }

    method ListRepoWebhooks(name: string, a: Answers) returns (listed: Option<seq<Hook>>)
      ensures var st := At(map[], hooks, name);
              listed == if Listed(st, a) then Some(Shown(st, a)) else None
    {
      if name !in hooks {
        return None;
      }
      var requests;
      listed, requests := FetchAll(hooks[name], a.cap, a.pageFails);
    }

    method CreateRepoWebhook(name: string, url: string, a: Answers) returns (id: Option<int>)
      requires name in hooks
      modifies this
      ensures createRequests == old(createRequests) + {name} && deleteRequests == old(deleteRequests)
      ensures id == if a.create.Created? then Some(a.create.id) else None
      ensures hooks == if a.create.CreateRefused? then old(hooks)
                       else old(hooks)[name := old(hooks)[name] + [Hook(a.create.id, url)]]
    {
      createRequests := createRequests + {name};
      if !a.create.CreateRefused? {
        hooks := hooks[name := hooks[name] + [Hook(a.create.id, url)]];
      }
      id := if a.create.Created? then Some(a.create.id) else None;
    }

    method DeleteRepoWebhook(name: string, id: int, a: Answers) returns (ok: bool)
      modifies this
      ensures deleteRequests == old(deleteRequests) + {(name, id)} && createRequests == old(createRequests)
      ensures var there := HasId(At(map[], old(hooks), name), id);
              && ok == (there && a.delete.DeleteAccepted?)
              && hooks == if there && !a.delete.DeleteRefused?
                          then old(hooks)[name := WithoutId(old(hooks)[name], id)] else old(hooks)
    {
      deleteRequests := deleteRequests + {(name, id)};
      var there := name in hooks && WithoutId(hooks[name], id) != hooks[name];
      if name in hooks {
        WithoutIdChanges(hooks[name], id);
      }
      ok := there && a.delete.DeleteAccepted?;
      if there && !a.delete.DeleteRefused? {
        hooks := hooks[name := WithoutId(hooks[name], id)];
      }
    }
  }

  lemma {:induction false} WithoutIdChanges(hooks: seq<Hook>, id: int)
    ensures WithoutId(hooks, id) == hooks <==> forall h :: h in hooks ==> h.id != id
  {
    if hooks != [] {
      WithoutIdChanges(hooks[1..], id);
      assert hooks == [hooks[0]] + hooks[1..];
      if hooks[0].id == id {
        assert hooks[0] !in WithoutId(hooks, id);
      }
    }
  }

  class WebhookSyncer {
    const server: ForgejoServer
    const webhookURL: string
    var managedRepos: map<string, int>

    constructor (server: ForgejoServer, webhookURL: string)
      ensures this.server == server && this.webhookURL == webhookURL && managedRepos == map[]
    {
      this.server, this.webhookURL, managedRepos := server, webhookURL, map[];
    }

    method ManagedRepos() returns (out: map<string, int>)
      ensures out == managedRepos
    {
      out := managedRepos;
    }

    method SetManagedRepos(m: map<string, int>)
      modifies this
      ensures managedRepos == m
    {
      managedRepos := m;
    }

    ghost function Repo(name: string): RepoState
      reads this, server
    {
      At(managedRepos, server.hooks, name)
    }

    /** One cycle. The sets are walked in any order; the result is the closed form all the same. */
    method RunOnce(search: Option<seq<Repository>>, answers: string -> Answers) returns (state: Option<map<string, int>>)
      modifies this, server
      ensures search.None? ==> state.None? && managedRepos == old(managedRepos) && server.hooks == old(server.hooks)
      ensures search.Some? ==>
        && state == Some(managedRepos)
        && managedRepos == FinalManaged(old(managedRepos), old(server.hooks), search.value, webhookURL, answers)
        && server.hooks == FinalHooks(old(managedRepos), old(server.hooks), search.value, webhookURL, answers)
      ensures search.None? ==>
        server.createRequests == old(server.createRequests) && server.deleteRequests == old(server.deleteRequests)
      ensures search.Some? ==>
        && server.createRequests == old(server.createRequests) +
             CreateRequests(old(managedRepos), old(server.hooks), search.value, webhookURL, answers)
        && server.deleteRequests == old(server.deleteRequests) + DeleteRequests(old(managedRepos), search.value)
    {
      if search.None? {
        return None;
      }
      var repos := search.value;
      var topicRepos, adminRepos := Partition(repos);
      ghost var m, h := managedRepos, server.hooks;
      hide AfterEnsure, AfterDelete, FinalManaged, FinalHooks;
      EnsureAll(adminRepos, answers);
      ghost var m1, h1 := managedRepos, server.hooks;
      assert forall n :: At(m1, h1, n) == Ensured(n, At(m, h, n), adminRepos, webhookURL, answers(n));
      SameDeleteRequests(m, h, m1, h1, repos);
      RemoveIneligible(topicRepos, adminRepos, answers);
      ClosedForm(m, h, repos, webhookURL, answers, managedRepos, server.hooks);
      state := Some(managedRepos);
    }

    method Partition(repos: seq<Repository>) returns (topicRepos: set<string>, adminRepos: set<string>)
      ensures topicRepos == TopicRepos(repos) && adminRepos == AdminRepos(repos)
    {
      topicRepos, adminRepos := {}, {};
      for i := 0 to |repos|
        invariant topicRepos == TopicRepos(repos[..i]) && adminRepos == AdminRepos(repos[..i])
      {
        PartitionSnoc(repos[..i], repos[i]);
        assert repos[..i + 1] == repos[..i] + [repos[i]];
        topicRepos := topicRepos + {repos[i].fullName};
        if repos[i].admin {
          adminRepos := adminRepos + {repos[i].fullName};
        }
      }
      assert repos[..|repos|] == repos;
    }

    /** Every repository with admin permission, in any order. */
    method EnsureAll(adminRepos: set<string>, answers: string -> Answers)
      modifies this, server
      ensures forall n :: Repo(n) == Ensured(n, old(Repo(n)), adminRepos, webhookURL, answers(n))
      ensures server.deleteRequests == old(server.deleteRequests)
      ensures server.createRequests == old(server.createRequests) +
        set n | n in adminRepos && WellFormedName(n) && AsksToCreate(old(Repo(n)), webhookURL, answers(n))
    {
      ghost var m, h, before := managedRepos, server.hooks, server.createRequests;
      var todo := adminRepos;
      while todo != {}
        invariant todo <= adminRepos
        invariant forall n :: Repo(n) == Ensured(n, At(m, h, n), adminRepos - todo, webhookURL, answers(n))
        invariant server.deleteRequests == old(server.deleteRequests)
        invariant server.createRequests == before +
          set n | n in adminRepos - todo && WellFormedName(n) && AsksToCreate(At(m, h, n), webhookURL, answers(n))
        decreases todo
      {
        var fullName :| fullName in todo;
        assert Repo(fullName) == At(m, h, fullName);
        ghost var now := server.createRequests;
        if '/' in fullName {
          EnsureWebhook(fullName, answers(fullName));
        }
        assert adminRepos - (todo - {fullName}) == adminRepos - todo + {fullName};
        todo := todo - {fullName};
      }
    }

    method EnsureWebhook(fullName: string, a: Answers)
      modifies this, server
      ensures Repo(fullName) == AfterEnsure(old(Repo(fullName)), webhookURL, a)
      ensures forall n :: n != fullName ==> Repo(n) == old(Repo(n))
      ensures server.deleteRequests == old(server.deleteRequests)
      ensures server.createRequests == old(server.createRequests) +
        if AsksToCreate(old(Repo(fullName)), webhookURL, a) then {fullName} else {}
    {
      var hooks := server.ListRepoWebhooks(fullName, a);
      if hooks.None? {
        return;
      }
      for i := 0 to |hooks.value|
        invariant FirstMatch(hooks.value, webhookURL) == FirstMatch(hooks.value[i..], webhookURL)
      {
        if hooks.value[i].url == webhookURL {
          managedRepos := managedRepos[fullName := hooks.value[i].id];
          return;
        }
      }
      var id := server.CreateRepoWebhook(fullName, webhookURL, a);
      if id.Some? {
        managedRepos := managedRepos[fullName := id.value];
      }
    }

    /** Every recorded repository that is no longer eligible, in any order. */
    method RemoveIneligible(topicRepos: set<string>, adminRepos: set<string>, answers: string -> Answers)
      modifies this, server
      ensures forall n :: Repo(n) == Removed(n, old(Repo(n)), topicRepos, adminRepos, answers(n))
      ensures forall n :: n in adminRepos ==> Repo(n) == old(Repo(n))
      ensures forall n :: n in topicRepos && n !in adminRepos ==> n !in managedRepos && Repo(n).hooks == old(Repo(n)).hooks
      ensures forall n :: n !in topicRepos + adminRepos && n in old(managedRepos) ==>
        (n in managedRepos <==>
           !('/' in n && HasId(old(Repo(n)), old(managedRepos)[n]) && answers(n).delete.DeleteAccepted?))
      ensures server.createRequests == old(server.createRequests)
      ensures server.deleteRequests == old(server.deleteRequests) +
        set n | n in old(managedRepos) && n !in adminRepos + topicRepos && WellFormedName(n) :: (n, old(managedRepos)[n])
    {
      var pending := managedRepos;
      ghost var h, before := server.hooks, server.deleteRequests;
      var todo := pending.Keys;
      while todo != {}
        invariant todo <= pending.Keys
        invariant forall n :: n in todo ==> Repo(n) == At(pending, h, n)
        invariant forall n :: n !in todo ==> Repo(n) == Removed(n, At(pending, h, n), topicRepos, adminRepos, answers(n))
        invariant server.createRequests == old(server.createRequests)
        invariant server.deleteRequests == before +
          set n | n in pending.Keys - todo && n !in adminRepos + topicRepos && WellFormedName(n) :: (n, pending[n])
        decreases todo
      {
        var fullName :| fullName in todo;
        assert Repo(fullName) == At(pending, h, fullName);
        RemoveOne(fullName, pending[fullName], topicRepos, adminRepos, answers(fullName));
        assert pending.Keys - (todo - {fullName}) == pending.Keys - todo + {fullName};
        todo := todo - {fullName};
      }
    }

    method RemoveOne(fullName: string, hookID: int, topicRepos: set<string>, adminRepos: set<string>, a: Answers)
      requires fullName in managedRepos && managedRepos[fullName] == hookID
      modifies this, server
      ensures Repo(fullName) == Removed(fullName, old(Repo(fullName)), topicRepos, adminRepos, a)
      ensures forall n :: n != fullName ==> Repo(n) == old(Repo(n))
      ensures server.createRequests == old(server.createRequests)
      ensures server.deleteRequests == old(server.deleteRequests) +
        if fullName !in adminRepos + topicRepos && WellFormedName(fullName) then {(fullName, hookID)} else {}
    {
      if fullName in adminRepos {
        return;
      }
      if fullName in topicRepos {
        managedRepos := managedRepos - {fullName};
        return;
      }
      if '/' !in fullName {
        return;
      }
      var ok := server.DeleteRepoWebhook(fullName, hookID, a);
      if ok {
        managedRepos := managedRepos - {fullName};
      }
    }
  }

  /** A new syncer for a changed configuration takes over the old one's record;
      without an old one it starts from the persisted record, if there is any. */
  method ReplaceSyncer(old': WebhookSyncer?, persisted: map<string, int>, server: ForgejoServer, webhookURL: string)
    returns (syncer: WebhookSyncer)
    ensures fresh(syncer) && syncer.server == server && syncer.webhookURL == webhookURL
    ensures syncer.managedRepos == if old' != null then old'.managedRepos else persisted
  {
    syncer := new WebhookSyncer(server, webhookURL);
    if old' != null {
      var state := old'.ManagedRepos();
      syncer.SetManagedRepos(state);
    } else if |persisted| > 0 {
      syncer.SetManagedRepos(persisted);
    }
  }

  lemma SameDeleteRequests(m: map<string, int>, h: map<string, seq<Hook>>, m1: map<string, int>, h1: map<string, seq<Hook>>,
                           repos: seq<Repository>)
    requires forall n :: n !in AdminRepos(repos) ==> At(m1, h1, n) == At(m, h, n)
    ensures (set n | n in m1 && n !in AdminRepos(repos) + TopicRepos(repos) && WellFormedName(n) :: (n, m1[n]))
         == DeleteRequests(m, repos)
  {
    assert AdminRepos(repos) <= TopicRepos(repos);
    forall n | n !in AdminRepos(repos)
      ensures n in m1 <==> n in m
      ensures n in m ==> m1[n] == m[n]
    {
      assert At(m1, h1, n).entry == At(m, h, n).entry;
    }
  }

  lemma PartitionSnoc(repos: seq<Repository>, last: Repository)
    ensures TopicRepos(repos + [last]) == TopicRepos(repos) + {last.fullName}
    ensures AdminRepos(repos + [last]) == AdminRepos(repos) + if last.admin then {last.fullName} else {}
  {
    var longer := repos + [last];
    assert longer[|repos|] == last;
    assert forall i :: 0 <= i < |repos| ==> longer[i] == repos[i];
  }
}
