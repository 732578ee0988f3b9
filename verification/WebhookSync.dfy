/** What one sync cycle makes of one repository, and of all of them together. */
module WebhookSync {
  import opened Options
  import opened Paging

  datatype Hook = Hook(id: int, url: string)

  /** A search result; absent permissions count as no admin permission. */
  datatype Repository = Repository(fullName: string, admin: bool)

  datatype CreateAnswer = Created(id: int) | CreateRefused | CreatedButFailed(id: int)
  datatype DeleteAnswer = DeleteAccepted | DeleteRefused | DeletedButFailed

  /** How the server answers each call on one repository: how large it lets
      a page of hooks be, which page requests fail, and the two changes. */
  datatype Answers = Answers(cap: nat, pageFails: nat -> bool, create: CreateAnswer, delete: DeleteAnswer)

  function TopicRepos(repos: seq<Repository>): set<string> {
    set i | 0 <= i < |repos| :: repos[i].fullName
  }

  function AdminRepos(repos: seq<Repository>): set<string> {
    set i | 0 <= i < |repos| && repos[i].admin :: repos[i].fullName
  }

  /** owner/name; anything else is skipped. */
  predicate WellFormedName(fullName: string) { '/' in fullName }

  function FirstMatch(hooks: seq<Hook>, url: string): (id: Option<int>)
    ensures id.Some? ==> Hook(id.value, url) in hooks
    ensures id.None? <==> forall h :: h in hooks ==> h.url != url
  {
    if hooks == [] then None
    else if hooks[0].url == url then Some(hooks[0].id)
    else FirstMatch(hooks[1..], url)
  }

  function WithoutId(hooks: seq<Hook>, id: int): (r: seq<Hook>)
    ensures forall h :: h in r <==> h in hooks && h.id != id
  {
    if hooks == [] then []
    else (if hooks[0].id == id then [] else [hooks[0]]) + WithoutId(hooks[1..], id)
  }

  /** A repository as the server has it, and the hook id recorded for it. */
  datatype RepoState = RepoState(hooks: Option<seq<Hook>>, entry: Option<int>)

  predicate Listed(st: RepoState, a: Answers) {
    st.hooks.Some? && Arrives(|st.hooks.value|, a.cap, a.pageFails)
  }

  /** The hooks a listing shows: all of them, unless the server's pages are too small. */
  function Shown(st: RepoState, a: Answers): seq<Hook>
    requires st.hooks.Some?
  {
    Collected(st.hooks.value, a.cap)
  }

  predicate AsksToCreate(st: RepoState, url: string, a: Answers) {
    Listed(st, a) && FirstMatch(Shown(st, a), url).None?
  }

  function AfterEnsure(st: RepoState, url: string, a: Answers): RepoState {
    if !Listed(st, a) then st
    else
      var found := FirstMatch(Shown(st, a), url);
      if found.Some? then st.(entry := found)
      else match a.create
           case Created(id) => RepoState(Some(st.hooks.value + [Hook(id, url)]), Some(id))
           case CreatedButFailed(id) => st.(hooks := Some(st.hooks.value + [Hook(id, url)]))
           case CreateRefused => st
  }

  /** The server deletes a hook only if it is there. */
  predicate HasId(st: RepoState, id: int) {
    st.hooks.Some? && exists h :: h in st.hooks.value && h.id == id
  }

  function AfterDelete(st: RepoState, a: Answers): RepoState {
    match st.entry
    case None => st
    case Some(id) =>
      if !HasId(st, id) || a.delete.DeleteRefused? then st
      else RepoState(Some(WithoutId(st.hooks.value, id)), if a.delete.DeleteAccepted? then None else st.entry)
  }

  /** The ensuring half of a cycle touches the repositories with admin permission. */
  function Ensured(name: string, st: RepoState, admin: set<string>, url: string, a: Answers): RepoState {
    if name in admin && WellFormedName(name) then AfterEnsure(st, url, a) else st
  }

  /** The removing half touches the others. */
  function Removed(name: string, st: RepoState, topic: set<string>, admin: set<string>, a: Answers): RepoState {
    if name in admin then st
    else if name in topic then st.(entry := None)
    else if WellFormedName(name) then AfterDelete(st, a)
    else st
  }

  /** The closed form of one cycle for one repository. */
  function AfterSync(name: string, st: RepoState, repos: seq<Repository>, url: string, a: Answers): RepoState {
    if name in AdminRepos(repos) then Ensured(name, st, AdminRepos(repos), url, a)
    else Removed(name, st, TopicRepos(repos), AdminRepos(repos), a)
  }

  // ---------------------------------------------------------------------
  // All repositories
  // ---------------------------------------------------------------------

  function At(managed: map<string, int>, hooks: map<string, seq<Hook>>, name: string): RepoState {
    RepoState(if name in hooks then Some(hooks[name]) else None, if name in managed then Some(managed[name]) else None)
  }

  function FinalManaged(managed: map<string, int>, hooks: map<string, seq<Hook>>,
                        repos: seq<Repository>, url: string, answers: string -> Answers): map<string, int> {
    map n | n in managed.Keys + AdminRepos(repos) &&
            AfterSync(n, At(managed, hooks, n), repos, url, answers(n)).entry.Some?
      :: AfterSync(n, At(managed, hooks, n), repos, url, answers(n)).entry.value
  }

  lemma ExistenceIsKept(name: string, st: RepoState, repos: seq<Repository>, url: string, a: Answers)
    ensures AfterSync(name, st, repos, url, a).hooks.Some? <==> st.hooks.Some?
  {
  }

  function FinalHooks(managed: map<string, int>, hooks: map<string, seq<Hook>>,
                      repos: seq<Repository>, url: string, answers: string -> Answers): map<string, seq<Hook>> {
    map n | n in hooks ::
      ExistenceIsKept(n, At(managed, hooks, n), repos, url, answers(n));
      AfterSync(n, At(managed, hooks, n), repos, url, answers(n)).hooks.value
  }

  lemma FinalAt(managed: map<string, int>, hooks: map<string, seq<Hook>>,
                repos: seq<Repository>, url: string, answers: string -> Answers, n: string)
    ensures At(FinalManaged(managed, hooks, repos, url, answers), FinalHooks(managed, hooks, repos, url, answers), n)
         == AfterSync(n, At(managed, hooks, n), repos, url, answers(n))
  {
  }

  /** The closed form fixes both maps. */
  lemma ClosedForm(managed: map<string, int>, hooks: map<string, seq<Hook>>, repos: seq<Repository>, url: string,
                   answers: string -> Answers, managed': map<string, int>, hooks': map<string, seq<Hook>>)
    requires forall n :: At(managed', hooks', n) == AfterSync(n, At(managed, hooks, n), repos, url, answers(n))
    ensures managed' == FinalManaged(managed, hooks, repos, url, answers)
    ensures hooks' == FinalHooks(managed, hooks, repos, url, answers)
  {
    hide AfterSync;
    forall n
      ensures n in managed' <==> n in FinalManaged(managed, hooks, repos, url, answers)
      ensures n in managed' ==> managed'[n] == FinalManaged(managed, hooks, repos, url, answers)[n]
      ensures n in hooks' <==> n in FinalHooks(managed, hooks, repos, url, answers)
      ensures n in hooks' ==> hooks'[n] == FinalHooks(managed, hooks, repos, url, answers)[n]
    {
      FinalAt(managed, hooks, repos, url, answers, n);
      assert At(managed', hooks', n) == At(FinalManaged(managed, hooks, repos, url, answers), FinalHooks(managed, hooks, repos, url, answers), n);
    }
  }

  /** The requests that change something on the server. */
  function CreateRequests(managed: map<string, int>, hooks: map<string, seq<Hook>>,
                          repos: seq<Repository>, url: string, answers: string -> Answers): set<string> {
    set n | n in AdminRepos(repos) && WellFormedName(n) && AsksToCreate(At(managed, hooks, n), url, answers(n))
  }

  function DeleteRequests(managed: map<string, int>, repos: seq<Repository>): set<(string, int)> {
    set n | n in managed && n !in TopicRepos(repos) && WellFormedName(n) :: (n, managed[n])
  }

  // ---------------------------------------------------------------------
  // The result, repository by repository
  // ---------------------------------------------------------------------

  /** A recorded repository that has the topic, never with admin permission,
      is forgotten; nothing is asked of the server. */
  lemma WithoutPermissionIsForgotten(managed: map<string, int>, hooks: map<string, seq<Hook>>, repos: seq<Repository>,
                                     url: string, answers: string -> Answers, n: string)
    requires exists i :: 0 <= i < |repos| && repos[i].fullName == n
    requires forall i :: 0 <= i < |repos| && repos[i].fullName == n ==> !repos[i].admin
    ensures n !in FinalManaged(managed, hooks, repos, url, answers)
    ensures n in hooks ==> FinalHooks(managed, hooks, repos, url, answers)[n] == hooks[n]
    ensures n !in CreateRequests(managed, hooks, repos, url, answers)
    ensures forall id :: (n, id) !in DeleteRequests(managed, repos)
  {
  }

  /** A repository without the topic loses its record exactly if the recorded
      hook was there and its deletion was accepted, and that hook exactly if it
      was deleted; nothing is created. */
  lemma OffTopicIsDeleted(managed: map<string, int>, hooks: map<string, seq<Hook>>, repos: seq<Repository>,
                          url: string, answers: string -> Answers, n: string)
    requires forall i :: 0 <= i < |repos| ==> repos[i].fullName != n
    ensures var t, d := FinalManaged(managed, hooks, repos, url, answers), answers(n).delete;
            var there := n in managed && '/' in n && n in hooks && exists h :: h in hooks[n] && h.id == managed[n];
            && (n in t <==> n in managed && !(there && d.DeleteAccepted?))
            && (n in t ==> t[n] == managed[n])
            && (n in hooks ==>
                  var rest := FinalHooks(managed, hooks, repos, url, answers)[n];
                  if there && !d.DeleteRefused? then forall h :: h in rest <==> h in hooks[n] && h.id != managed[n]
                  else rest == hooks[n])
    ensures n !in CreateRequests(managed, hooks, repos, url, answers)
    ensures forall id :: (n, id) in DeleteRequests(managed, repos) <==> n in managed && id == managed[n] && '/' in n
  {
    assert n !in TopicRepos(repos) && n !in AdminRepos(repos);
    FinalAt(managed, hooks, repos, url, answers, n);
    hide FinalManaged, FinalHooks, TopicRepos, AdminRepos;
  }

  lemma {:induction false} FirstMatchAt(hooks: seq<Hook>, i: nat, url: string)
    requires i < |hooks| && hooks[i].url == url && forall k :: 0 <= k < i ==> hooks[k].url != url
    ensures FirstMatch(hooks, url) == Some(hooks[i].id)
  {
    if i > 0 {
      FirstMatchAt(hooks[1..], i - 1, url);
    }
  }

  /** The hooks the page loop returns, if every request arrives. */
  lemma ListedAndShown(hooks: seq<Hook>, entry: Option<int>, a: Answers)
    ensures var st := RepoState(Some(hooks), entry);
            && (Listed(st, a) <==> forall p :: 1 <= p <= (if a.cap < 50 then 1 else |hooks| / 50 + 1) ==> !a.pageFails(p))
            && Shown(st, a) == if a.cap >= 50 || |hooks| <= a.cap then hooks else hooks[..a.cap]
  {
  }

  /** With a listing, the first shown hook for the URL is recorded; without
      one a hook is requested, and recorded if its creation is reported. */
  lemma EnsureInFull(st: RepoState, url: string, a: Answers)
    ensures !Listed(st, a) ==> AfterEnsure(st, url, a) == st
    ensures Listed(st, a) ==> forall i :: 0 <= i < |Shown(st, a)| && Shown(st, a)[i].url == url ==>
      (forall k :: 0 <= k < i ==> Shown(st, a)[k].url != url) ==>
        AfterEnsure(st, url, a) == st.(entry := Some(Shown(st, a)[i].id))
    ensures Listed(st, a) && (forall h :: h in Shown(st, a) ==> h.url != url) ==>
      match a.create
      case CreateRefused => AfterEnsure(st, url, a) == st
      case Created(id) => AfterEnsure(st, url, a) == RepoState(Some(st.hooks.value + [Hook(id, url)]), Some(id))
      case CreatedButFailed(id) => AfterEnsure(st, url, a) == RepoState(Some(st.hooks.value + [Hook(id, url)]), st.entry)
  {
    if Listed(st, a) {
      var shown := Shown(st, a);
      forall i | 0 <= i < |shown| && shown[i].url == url && (forall k :: 0 <= k < i ==> shown[k].url != url)
        ensures FirstMatch(shown, url) == Some(shown[i].id)
      {
        FirstMatchAt(shown, i, url);
      }
    }
  }

  /** That is what becomes of a repository with the topic and admin permission,
      if its name has an owner; none of its hooks is deleted. */
  lemma WithPermissionIsEnsured(managed: map<string, int>, hooks: map<string, seq<Hook>>, repos: seq<Repository>,
                                url: string, answers: string -> Answers, n: string)
    requires exists i :: 0 <= i < |repos| && repos[i].fullName == n && repos[i].admin
    ensures var st := At(managed, hooks, n);
            && At(FinalManaged(managed, hooks, repos, url, answers), FinalHooks(managed, hooks, repos, url, answers), n)
               == (if '/' in n then AfterEnsure(st, url, answers(n)) else st)
            && (n in CreateRequests(managed, hooks, repos, url, answers) <==>
                  '/' in n && Listed(st, answers(n)) && forall h :: h in Shown(st, answers(n)) ==> h.url != url)
    ensures forall id :: (n, id) !in DeleteRequests(managed, repos)
  {
    assert n in AdminRepos(repos) && n in TopicRepos(repos);
    FinalAt(managed, hooks, repos, url, answers, n);
    hide FinalManaged, FinalHooks, TopicRepos, AdminRepos, AfterEnsure;
  }
}
