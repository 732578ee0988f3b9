/** Many sync cycles in a row: no second hook, no lost hook, and nothing to do twice. */
module SyncHistory {
  import opened Options
  import opened Paging
  import opened WebhookSync

  /** `reported` holds every hook whose creation the server reported, and
      `givenUp` the recorded repositories once seen with the topic but
      without admin permission. */
  datatype World = World(
    managed: map<string, int>,
    hooks: map<string, seq<Hook>>,
    reported: set<(string, int)>,
    givenUp: set<string>)

  datatype Event =
    | Cycle(search: Option<seq<Repository>>, answers: string -> Answers)
    | Outside(hooks: map<string, seq<Hook>>)
    | Restart(restored: map<string, int>)

  function ReportedBy(w: World, repos: seq<Repository>, url: string, answers: string -> Answers): set<(string, int)> {
    set n | n in CreateRequests(w.managed, w.hooks, repos, url, answers) && answers(n).create.Created?
      :: (n, answers(n).create.id)
  }

  function After(w: World, ev: Event, url: string): World {
    match ev
    case Cycle(None, _) => w
    case Cycle(Some(repos), answers) =>
      World(FinalManaged(w.managed, w.hooks, repos, url, answers),
            FinalHooks(w.managed, w.hooks, repos, url, answers),
            w.reported + ReportedBy(w, repos, url, answers),
            w.givenUp + (w.managed.Keys * (TopicRepos(repos) - AdminRepos(repos))))
    case Outside(hooks) => w.(hooks := hooks)
    case Restart(restored) => w.(managed := restored)
  }

  /** The worlds follow each other by the events. */
  ghost predicate History(worlds: seq<World>, events: seq<Event>, url: string) {
    && |worlds| == |events| + 1
    && forall k :: 0 <= k < |events| ==> worlds[k + 1] == After(worlds[k], events[k], url)
  }

  function CountUrl(hooks: seq<Hook>, url: string): nat {
    if hooks == [] then 0
    else CountUrl(hooks[..|hooks| - 1], url) + if hooks[|hooks| - 1].url == url then 1 else 0
  }

  function HooksFor(st: RepoState, url: string): nat {
    if st.hooks.Some? then CountUrl(st.hooks.value, url) else 0
  }

  function In(w: World, n: string): RepoState { At(w.managed, w.hooks, n) }

  predicate OneHook(w: World, n: string, url: string) { HooksFor(In(w, n), url) <= 1 }

  // ---------------------------------------------------------------------
  // One hook per repository
  // ---------------------------------------------------------------------

  lemma {:induction false} CountUrlZero(hooks: seq<Hook>, url: string)
    ensures CountUrl(hooks, url) == 0 <==> forall h :: h in hooks ==> h.url != url
  {
    if hooks != [] {
      var front, last := hooks[..|hooks| - 1], hooks[|hooks| - 1];
      CountUrlZero(front, url);
      assert hooks == front + [last];
    }
  }

  lemma {:induction false} CountUrlConcat(a: seq<Hook>, b: seq<Hook>, url: string)
    ensures CountUrl(a + b, url) == CountUrl(a, url) + CountUrl(b, url)
  {
    if b == [] {
      assert a + b == a;
    } else {
      var front, last := b[..|b| - 1], b[|b| - 1];
      CountUrlConcat(a, front, url);
      assert (a + b)[..|a + b| - 1] == a + front;
    }
  }

  lemma {:induction false} WithoutIdCounts(hooks: seq<Hook>, id: int, url: string)
    ensures CountUrl(WithoutId(hooks, id), url) <= CountUrl(hooks, url)
  {
    if hooks != [] {
      WithoutIdCounts(hooks[1..], id, url);
      CountUrlConcat([hooks[0]], hooks[1..], url);
      CountUrlConcat([], WithoutId(hooks[1..], id), url);
      CountUrlConcat([hooks[0]], WithoutId(hooks[1..], id), url);
      assert hooks == [hooks[0]] + hooks[1..];
      assert [] + WithoutId(hooks[1..], id) == WithoutId(hooks[1..], id);
    }
  }

  lemma AddedHook(hooks: seq<Hook>, id: int, url: string)
    ensures CountUrl(hooks + [Hook(id, url)], url) == CountUrl(hooks, url) + 1
  {
  }

  /** The cycle adds a hook on the server, whether or not it hears of it. */
  predicate Creates(name: string, st: RepoState, repos: seq<Repository>, url: string, a: Answers) {
    name in AdminRepos(repos) && WellFormedName(name) && AsksToCreate(st, url, a) && !a.create.CreateRefused?
  }

  /** It does so although the hook is there: the listing stopped before it. */
  predicate Overlooks(name: string, st: RepoState, repos: seq<Repository>, url: string, a: Answers) {
    Creates(name, st, repos, url, a) && a.cap < LIMIT && a.cap < |st.hooks.value| && CountUrl(st.hooks.value[a.cap..], url) > 0
  }

  lemma OverlooksIff(name: string, st: RepoState, repos: seq<Repository>, url: string, a: Answers)
    requires Creates(name, st, repos, url, a)
    ensures HooksFor(st, url) > 0 <==> Overlooks(name, st, repos, url, a)
  {
    var hooks, shown := st.hooks.value, Shown(st, a);
    CountUrlZero(shown, url);
    var hidden := hooks[|shown|..];
    CountUrlConcat(shown, hidden, url);
    assert hooks == shown + hidden;
  }

  lemma EnsureAddsOneHook(st: RepoState, url: string, a: Answers)
    ensures HooksFor(AfterEnsure(st, url, a), url) ==
      HooksFor(st, url) + if AsksToCreate(st, url, a) && !a.create.CreateRefused? then 1 else 0
  {
    if AsksToCreate(st, url, a) && !a.create.CreateRefused? {
      AddedHook(st.hooks.value, a.create.id, url);
    }
  }

  lemma DeleteKeepsOneHook(st: RepoState, url: string, a: Answers)
    requires HooksFor(st, url) <= 1
    ensures HooksFor(AfterDelete(st, a), url) <= 1
  {
    if st.hooks.Some? && st.entry.Some? {
      WithoutIdCounts(st.hooks.value, st.entry.value, url);
    }
  }

  /** A cycle gives a repository a second hook exactly if it overlooks the first. */
  lemma CycleKeepsOneHookIff(name: string, st: RepoState, repos: seq<Repository>, url: string, a: Answers)
    requires HooksFor(st, url) <= 1
    ensures HooksFor(AfterSync(name, st, repos, url, a), url) <= 1 <==> !Overlooks(name, st, repos, url, a)
  {
    EnsureAddsOneHook(st, url, a);
    DeleteKeepsOneHook(st, url, a);
    if Creates(name, st, repos, url, a) {
      OverlooksIff(name, st, repos, url, a);
    }
    hide AfterEnsure, AfterDelete, CountUrl;
  }

  /** What others do to the hooks of n, with at most one hook for our URL left. */
  predicate LeavesOneHook(ev: Event, n: string, url: string) {
    ev.Outside? && n in ev.hooks ==> CountUrl(ev.hooks[n], url) <= 1
  }

  predicate OverlooksIn(w: World, ev: Event, n: string, url: string) {
    ev.Cycle? && ev.search.Some? && Overlooks(n, In(w, n), ev.search.value, url, ev.answers(n))
  }

  lemma EventKeepsOneHookIff(w: World, ev: Event, url: string, n: string)
    requires OneHook(w, n, url) && LeavesOneHook(ev, n, url)
    ensures OneHook(After(w, ev, url), n, url) <==> !OverlooksIn(w, ev, n, url)
  {
    match ev
    case Cycle(Some(repos), answers) =>
      FinalAt(w.managed, w.hooks, repos, url, answers, n);
      CycleKeepsOneHookIff(n, In(w, n), repos, url, answers(n));
      hide After;
    case _ =>
  }

  lemma {:induction false} OneHookThroughout(worlds: seq<World>, events: seq<Event>, url: string, n: string, k: nat)
    requires History(worlds, events, url) && k < |worlds| && OneHook(worlds[0], n, url)
    requires forall j :: 0 <= j < |events| ==> LeavesOneHook(events[j], n, url)
    requires forall j :: 0 <= j < |events| ==> !OverlooksIn(worlds[j], events[j], n, url)
    ensures OneHook(worlds[k], n, url)
  {
    if k > 0 {
      OneHookThroughout(worlds, events, url, n, k - 1);
      EventKeepsOneHookIff(worlds[k - 1], events[k - 1], url, n);
    }
  }

  /** Through any cycles, restarts from any recorded state, and creations
      that fail after taking effect, a repository never gets a second hook,
      exactly if no cycle overlooks the one it has. */
  lemma NeverASecondHookIff(worlds: seq<World>, events: seq<Event>, url: string, n: string)
    requires History(worlds, events, url) && OneHook(worlds[0], n, url)
    requires forall k :: 0 <= k < |events| ==> LeavesOneHook(events[k], n, url)
    ensures (forall k :: 0 <= k < |worlds| ==> OneHook(worlds[k], n, url))
       <==> (forall k :: 0 <= k < |events| ==> !OverlooksIn(worlds[k], events[k], n, url))
  {
    hide OneHook, OverlooksIn, LeavesOneHook, After;
    if forall k :: 0 <= k < |events| ==> !OverlooksIn(worlds[k], events[k], n, url) {
      forall k | 0 <= k < |worlds| ensures OneHook(worlds[k], n, url) {
        OneHookThroughout(worlds, events, url, n, k);
      }
    }
    if forall k :: 0 <= k < |worlds| ==> OneHook(worlds[k], n, url) {
      forall k | 0 <= k < |events| ensures !OverlooksIn(worlds[k], events[k], n, url) {
        assert OneHook(worlds[k + 1], n, url);
        EventKeepsOneHookIff(worlds[k], events[k], url, n);
      }
    }
  }

  /** In particular, with pages as large as asked for there is never a second hook. */
  lemma NeverASecondHook(worlds: seq<World>, events: seq<Event>, url: string, n: string, k: nat)
    requires History(worlds, events, url) && OneHook(worlds[0], n, url) && k < |worlds|
    requires forall j :: 0 <= j < |events| ==> LeavesOneHook(events[j], n, url)
    requires forall j :: 0 <= j < |events| && events[j].Cycle? ==> events[j].answers(n).cap >= LIMIT
    ensures OneHook(worlds[k], n, url)
  {
    NeverASecondHookIff(worlds, events, url, n);
  }

  /** With one hook to a page, a hook for our URL in second place is overlooked. */
  lemma SmallPagesAddASecondHook(url: string, other: string)
    requires other != url
    ensures var w := World(map[], map["o/r" := [Hook(1, other), Hook(2, url)]], {}, {});
            var ev := Cycle(Some([Repository("o/r", true)]), n => Answers(1, page => false, Created(3), DeleteAccepted));
            OneHook(w, "o/r", url) && OverlooksIn(w, ev, "o/r", url) && !OneHook(After(w, ev, url), "o/r", url)
  {
    var w := World(map[], map["o/r" := [Hook(1, other), Hook(2, url)]], {}, {});
    var ev := Cycle(Some([Repository("o/r", true)]), n => Answers(1, page => false, Created(3), DeleteAccepted));
    var hooks := [Hook(1, other), Hook(2, url)];
    CountUrlConcat([Hook(1, other)], [Hook(2, url)], url);
    assert [Hook(1, other)] + [Hook(2, url)] == hooks && hooks[1..] == [Hook(2, url)];
    assert [Hook(1, other)][..0] == [] && [Hook(2, url)][..0] == [];
    assert "o/r"[1] == '/';
    assert Repository("o/r", true) == [Repository("o/r", true)][0] && "o/r" in AdminRepos(ev.search.value);
    assert Collected(hooks, 1) == [Hook(1, other)];
    EventKeepsOneHookIff(w, ev, url, "o/r");
  }

  // ---------------------------------------------------------------------
  // No leaked hooks
  // ---------------------------------------------------------------------

  predicate Present(st: RepoState, id: int, url: string) {
    st.hooks.Some? && Hook(id, url) in st.hooks.value
  }

  /** Every reported hook is recorded, or gone, or was given up. */
  ghost predicate NothingLeaked(w: World, url: string) {
    forall n, id :: (n, id) in w.reported && Present(In(w, n), id, url) ==> In(w, n).entry == Some(id) || n in w.givenUp
  }

  ghost predicate OneHookEach(w: World, url: string) {
    forall n :: OneHook(w, n, url)
  }

  /** Recorded state is carried over; the server issues an id only once; and
      nobody else adds a second hook or brings a reported one back. */
  ghost predicate Orderly(w: World, ev: Event, url: string) {
    match ev
    case Cycle(None, _) => true
    case Cycle(Some(repos), answers) =>
      forall n :: Creates(n, In(w, n), repos, url, answers(n)) ==> (n, answers(n).create.id) !in w.reported
    case Outside(hooks) =>
      && (forall n :: LeavesOneHook(ev, n, url))
      && (forall n, id :: (n, id) in w.reported && Present(At(w.managed, hooks, n), id, url) ==> Present(In(w, n), id, url))
    case Restart(restored) => restored == w.managed
  }

  lemma {:induction false} OnlyOneMatch(hooks: seq<Hook>, url: string, id: int)
    requires CountUrl(hooks, url) <= 1 && Hook(id, url) in hooks
    ensures FirstMatch(hooks, url) == Some(id)
  {
    assert hooks == [hooks[0]] + hooks[1..];
    CountUrlConcat([hooks[0]], hooks[1..], url);
    assert [hooks[0]][..0] == [];
    if hooks[0].url == url {
      CountUrlZero(hooks[1..], url);
      assert hooks[0] == Hook(id, url);
    } else {
      OnlyOneMatch(hooks[1..], url, id);
    }
  }

  /** A reported hook that is still there after a cycle is recorded, or its
      repository was given up, exactly unless the cycle overlooked it and
      recorded another one in its place. */
  lemma CycleLosesNothingIff(name: string, st: RepoState, repos: seq<Repository>, url: string, a: Answers, id: int)
    requires HooksFor(st, url) <= 1
    requires Present(st, id, url) ==> st.entry == Some(id)
    requires Creates(name, st, repos, url, a) ==> a.create.id != id
    requires Present(AfterSync(name, st, repos, url, a), id, url)
    ensures AfterSync(name, st, repos, url, a).entry == Some(id) || name in TopicRepos(repos) - AdminRepos(repos)
       <==> !(Overlooks(name, st, repos, url, a) && a.create.Created?)
  {
    if !Present(st, id, url) {
      CycleBringsNothingBack(name, st, repos, url, a, id);
    } else {
      OnlyOneMatch(st.hooks.value, url, id);
      CountUrlZero(st.hooks.value, url);
      if Creates(name, st, repos, url, a) {
        OverlooksIff(name, st, repos, url, a);
      } else if Listed(st, a) && FirstMatch(Shown(st, a), url).Some? {
        ShownMatch(st, url, a);
      }
    }
  }

  /** The first match of a listing is the first match of all hooks. */
  lemma {:induction false} FirstMatchOfPrefix(hooks: seq<Hook>, k: nat, url: string)
    requires k <= |hooks| && FirstMatch(hooks[..k], url).Some?
    ensures FirstMatch(hooks, url) == FirstMatch(hooks[..k], url)
  {
    if hooks[0].url != url {
      assert hooks[..k][1..] == hooks[1..][..k - 1];
      FirstMatchOfPrefix(hooks[1..], k - 1, url);
    }
  }

  lemma ShownMatch(st: RepoState, url: string, a: Answers)
    requires st.hooks.Some? && FirstMatch(Shown(st, a), url).Some?
    ensures FirstMatch(st.hooks.value, url) == FirstMatch(Shown(st, a), url)
  {
    FirstMatchOfPrefix(st.hooks.value, |Shown(st, a)|, url);
    assert st.hooks.value[..|Shown(st, a)|] == Shown(st, a);
  }

  lemma NewHookIsRecorded(name: string, st: RepoState, repos: seq<Repository>, url: string, a: Answers)
    requires Creates(name, st, repos, url, a) && a.create.Created?
    ensures AfterSync(name, st, repos, url, a).entry == Some(a.create.id)
  {
  }

  /** Whatever record survived a restart, a cycle whose listing of an eligible
      repository shows its hook records it again. */
  lemma CycleRecoversRecord(name: string, st: RepoState, repos: seq<Repository>, url: string, a: Answers, id: int)
    requires HooksFor(st, url) <= 1 && name in AdminRepos(repos) && WellFormedName(name)
    requires Listed(st, a) && Hook(id, url) in Shown(st, a)
    ensures AfterSync(name, st, repos, url, a) == st.(entry := Some(id))
  {
    ShownMatch(st, url, a);
    OnlyOneMatch(st.hooks.value, url, id);
  }

  lemma CycleKeepsNothingLeaked(w: World, repos: seq<Repository>, answers: string -> Answers, url: string)
    requires NothingLeaked(w, url) && OneHookEach(w, url)
    requires Orderly(w, Cycle(Some(repos), answers), url)
    requires forall n :: !Overlooks(n, In(w, n), repos, url, answers(n))
    ensures NothingLeaked(After(w, Cycle(Some(repos), answers), url), url)
  {
    hide AfterSync, FinalManaged, FinalHooks, Overlooks, CountUrl;
    var t := After(w, Cycle(Some(repos), answers), url);
    forall n, id | (n, id) in t.reported && Present(In(t, n), id, url)
      ensures In(t, n).entry == Some(id) || n in t.givenUp
    {
      FinalAt(w.managed, w.hooks, repos, url, answers, n);
      var st := In(w, n);
      if (n, id) in w.reported {
        if n !in w.givenUp {
          assert OneHook(w, n, url);
          CycleLosesNothingIff(n, st, repos, url, answers(n), id);
          if Present(st, id, url) {
            assert n in w.managed;
          } else {
            CycleBringsNothingBack(n, st, repos, url, answers(n), id);
          }
        }
      } else {
        NewHookIsRecorded(n, st, repos, url, answers(n));
      }
    }
  }

  lemma CycleBringsNothingBack(name: string, st: RepoState, repos: seq<Repository>, url: string, a: Answers, id: int)
    requires !Present(st, id, url)
    requires Creates(name, st, repos, url, a) ==> a.create.id != id
    ensures !Present(AfterSync(name, st, repos, url, a), id, url)
  {
  }

  ghost predicate Clean(w: World, url: string) {
    NothingLeaked(w, url) && OneHookEach(w, url)
  }

  lemma EventKeepsCleanIff(w: World, ev: Event, url: string)
    requires Clean(w, url) && Orderly(w, ev, url)
    ensures Clean(After(w, ev, url), url) <==> forall n :: !OverlooksIn(w, ev, n, url)
  {
    forall n ensures OneHook(After(w, ev, url), n, url) <==> !OverlooksIn(w, ev, n, url) {
      assert OneHook(w, n, url);
      assert LeavesOneHook(ev, n, url);
      EventKeepsOneHookIff(w, ev, url, n);
    }
    if forall n :: !OverlooksIn(w, ev, n, url) {
      match ev
      case Cycle(Some(repos), answers) =>
        assert forall n :: OverlooksIn(w, ev, n, url) == Overlooks(n, In(w, n), repos, url, answers(n));
        CycleKeepsNothingLeaked(w, repos, answers, url);
      case Cycle(None, _) =>
      case Restart(_) =>
      case Outside(hooks) =>
        forall n, id | (n, id) in w.reported && Present(At(w.managed, hooks, n), id, url)
          ensures At(w.managed, hooks, n).entry == Some(id) || n in w.givenUp
        {
          assert Present(In(w, n), id, url);
        }
    }
  }

  lemma {:induction false} CleanThroughout(worlds: seq<World>, events: seq<Event>, url: string, k: nat)
    requires History(worlds, events, url) && k < |worlds| && Clean(worlds[0], url)
    requires forall j :: 0 <= j < |events| ==> Orderly(worlds[j], events[j], url)
    requires forall j, n :: 0 <= j < |events| ==> !OverlooksIn(worlds[j], events[j], n, url)
    ensures Clean(worlds[k], url)
  {
    hide Clean, Orderly, OverlooksIn, After;
    if k > 0 {
      CleanThroughout(worlds, events, url, k - 1);
      EventKeepsCleanIff(worlds[k - 1], events[k - 1], url);
    }
  }

  /** Over any orderly history: at every point every hook whose creation was
      reported is recorded, gone, or was given up, and no repository has a
      second one, exactly if no cycle overlooks a hook that is there. */
  lemma NoHookIsLeakedIff(worlds: seq<World>, events: seq<Event>, url: string)
    requires History(worlds, events, url) && Clean(worlds[0], url)
    requires forall k :: 0 <= k < |events| ==> Orderly(worlds[k], events[k], url)
    ensures (forall k :: 0 <= k < |worlds| ==> Clean(worlds[k], url))
       <==> (forall k, n :: 0 <= k < |events| ==> !OverlooksIn(worlds[k], events[k], n, url))
  {
    hide Clean, Orderly, OverlooksIn, After;
    if forall k, n :: 0 <= k < |events| ==> !OverlooksIn(worlds[k], events[k], n, url) {
      forall k | 0 <= k < |worlds| ensures Clean(worlds[k], url) {
        CleanThroughout(worlds, events, url, k);
      }
    }
    if forall k :: 0 <= k < |worlds| ==> Clean(worlds[k], url) {
      forall k, n | 0 <= k < |events| ensures !OverlooksIn(worlds[k], events[k], n, url) {
        assert Clean(worlds[k + 1], url);
        EventKeepsCleanIff(worlds[k], events[k], url);
      }
    }
  }

  /** In particular, with pages as large as asked for nothing is ever leaked. */
  lemma NoHookIsLeaked(worlds: seq<World>, events: seq<Event>, url: string, k: nat)
    requires History(worlds, events, url) && Clean(worlds[0], url) && k < |worlds|
    requires forall j :: 0 <= j < |events| ==> Orderly(worlds[j], events[j], url)
    requires forall j, n :: 0 <= j < |events| && events[j].Cycle? ==> events[j].answers(n).cap >= LIMIT
    ensures Clean(worlds[k], url)
  {
    NoHookIsLeakedIff(worlds, events, url);
  }

  // ---------------------------------------------------------------------
  // A repeated cycle
  // ---------------------------------------------------------------------

  /** The cycle meets no error on this repository. */
  predicate NoError(name: string, st: RepoState, repos: seq<Repository>, url: string, a: Answers) {
    if name in AdminRepos(repos) then
      WellFormedName(name) ==> Listed(st, a) && (AsksToCreate(st, url, a) ==> a.create.Created?)
    else name in TopicRepos(repos) || !WellFormedName(name) ||
         (st.entry.Some? ==> HasId(st, st.entry.value) && a.delete.DeleteAccepted?)
  }

  /** A hook added now is one that the next listing shows. */
  predicate RoomToShow(st: RepoState, a: Answers) {
    st.hooks.Some? ==> a.cap >= LIMIT || |st.hooks.value| < a.cap
  }

  lemma {:induction false} MatchAfterCreate(hooks: seq<Hook>, id: int, url: string)
    requires FirstMatch(hooks, url).None?
    ensures FirstMatch(hooks + [Hook(id, url)], url) == Some(id)
  {
    if hooks != [] {
      MatchAfterCreate(hooks[1..], id, url);
      assert (hooks + [Hook(id, url)])[1..] == hooks[1..] + [Hook(id, url)];
    }
  }

  /** The same listing after a creation shows the new hook exactly if there was room for it. */
  lemma EnsureAsksAgainIff(st: RepoState, url: string, a: Answers, again: Answers)
    requires Listed(st, a) && (AsksToCreate(st, url, a) ==> a.create.Created?)
    requires again.cap == a.cap
    ensures var once := AfterEnsure(st, url, a);
            && (AsksToCreate(once, url, again) <==>
                  Listed(once, again) && AsksToCreate(st, url, a) && !RoomToShow(st, a))
            && (Listed(once, again) && !AsksToCreate(once, url, again) ==> AfterEnsure(once, url, again) == once)
  {
    if AsksToCreate(st, url, a) {
      var hooks := st.hooks.value;
      if RoomToShow(st, a) {
        assert Shown(st, a) == hooks;
        MatchAfterCreate(hooks, a.create.id, url);
        assert Shown(AfterEnsure(st, url, a), again) == hooks + [Hook(a.create.id, url)];
      } else {
        assert Shown(AfterEnsure(st, url, a), again) == Shown(st, a);
      }
    }
  }

  lemma RepeatAsksAgainIff(name: string, st: RepoState, repos: seq<Repository>, url: string, a: Answers, again: Answers)
    requires NoError(name, st, repos, url, a) && again.cap == a.cap
    requires name in AdminRepos(repos) && WellFormedName(name)
    ensures var once := AfterSync(name, st, repos, url, a);
            && (AsksToCreate(once, url, again) <==>
                  Listed(once, again) && AsksToCreate(st, url, a) && !RoomToShow(st, a))
            && (!AsksToCreate(once, url, again) ==> AfterSync(name, once, repos, url, again) == once)
  {
    EnsureAsksAgainIff(st, url, a, again);
  }

  lemma RepeatDeletesNothing(name: string, st: RepoState, repos: seq<Repository>, url: string, a: Answers, again: Answers)
    requires NoError(name, st, repos, url, a) && !(name in AdminRepos(repos) && WellFormedName(name))
    ensures var once := AfterSync(name, st, repos, url, a);
            && AfterSync(name, once, repos, url, again) == once
            && (name !in TopicRepos(repos) && WellFormedName(name) ==> once.entry.None?)
  {
  }

  /** Every hook the cycle adds is one that the next listing shows. */
  ghost predicate NewHooksShow(w: World, repos: seq<Repository>, answers: string -> Answers, url: string) {
    forall n :: n in CreateRequests(w.managed, w.hooks, repos, url, answers) ==> RoomToShow(In(w, n), answers(n))
  }

  /** After an error-free cycle on an unchanged server with unchanged page
      caps, a second one requests no deletion. However it is answered, it
      requests no creation and changes nothing, if the hooks just added can be
      seen; if they cannot and its listings arrive, it adds hooks again. */
  lemma SecondCycleIsQuietIff(w: World, repos: seq<Repository>, answers: string -> Answers, again: string -> Answers, url: string)
    requires forall n :: NoError(n, In(w, n), repos, url, answers(n)) && again(n).cap == answers(n).cap
    ensures var t := After(w, Cycle(Some(repos), answers), url);
            && DeleteRequests(t.managed, repos) == {}
            && (NewHooksShow(w, repos, answers, url) ==>
                  && CreateRequests(t.managed, t.hooks, repos, url, again) == {}
                  && FinalManaged(t.managed, t.hooks, repos, url, again) == t.managed
                  && FinalHooks(t.managed, t.hooks, repos, url, again) == t.hooks)
            && ((forall n :: n in AdminRepos(repos) && WellFormedName(n) ==> Listed(In(t, n), again(n))) ==>
                  (CreateRequests(t.managed, t.hooks, repos, url, again) == {} <==> NewHooksShow(w, repos, answers, url)))
  {
    hide AfterSync, FinalManaged, FinalHooks, AsksToCreate, RoomToShow, Listed;
    var t := After(w, Cycle(Some(repos), answers), url);
    forall n
      ensures n !in TopicRepos(repos) && WellFormedName(n) ==> n !in t.managed
      ensures n in AdminRepos(repos) && WellFormedName(n) ==>
        (AsksToCreate(In(t, n), url, again(n)) <==>
           Listed(In(t, n), again(n)) && AsksToCreate(In(w, n), url, answers(n)) && !RoomToShow(In(w, n), answers(n)))
      ensures !(n in AdminRepos(repos) && WellFormedName(n) && AsksToCreate(In(t, n), url, again(n))) ==>
        AfterSync(n, In(t, n), repos, url, again(n)) == In(t, n)
    {
      FinalAt(w.managed, w.hooks, repos, url, answers, n);
      if n in AdminRepos(repos) && WellFormedName(n) {
        RepeatAsksAgainIff(n, In(w, n), repos, url, answers(n), again(n));
      } else {
        RepeatDeletesNothing(n, In(w, n), repos, url, answers(n), again(n));
      }
    }
    forall n ensures n in CreateRequests(t.managed, t.hooks, repos, url, again) <==>
      n in CreateRequests(w.managed, w.hooks, repos, url, answers) && !RoomToShow(In(w, n), answers(n)) && Listed(In(t, n), again(n))
    {
    }
    if NewHooksShow(w, repos, answers, url) {
      ClosedForm(t.managed, t.hooks, repos, url, again, t.managed, t.hooks);
    }
  }
}
