/** The fork filter: one goroutine per project, at most ten lookups at a time, results by slot. */
module ForkFilter {
  import opened Options
  import opened Sequences

  const MAX_CONCURRENCY := 10

  datatype Lookup = LookupFailed | Fork | NoFork

  /** Where a project's goroutine is: not yet launched, waiting for the
      semaphore, inside IsFork, result stored but semaphore still held, gone. */
  datatype Stage = Unlaunched | Waiting | Calling | Storing | Done

  datatype Move = Launch | Acquire | Return | Release

  datatype State = State(
    stages: seq<Stage>,
    held: nat,
    results: seq<Option<Lookup>>,
    calls: seq<nat>)

  function Initial(n: nat): State {
    State(seq(n, _ => Unlaunched), 0, seq(n, _ => None), seq(n, _ => 0))
  }

  predicate Shaped(s: State, answers: seq<Lookup>) {
    |s.stages| == |s.results| == |s.calls| == |answers|
  }

  /** The launching loop goes through the projects in order; the semaphore
      lets a waiting goroutine in only while a place is free. */
  predicate Enabled(s: State, m: Move, i: nat) {
    i < |s.stages| &&
    match m
    case Launch => s.stages[i] == Unlaunched && (i > 0 ==> s.stages[i - 1] != Unlaunched)
    case Acquire => s.stages[i] == Waiting && s.held < MAX_CONCURRENCY
    case Return => s.stages[i] == Calling
    case Release => s.stages[i] == Storing && s.held > 0
  }

  function Next(s: State, m: Move, i: nat, answers: seq<Lookup>): State
    requires Shaped(s, answers) && Enabled(s, m, i)
  {
    match m
    case Launch => s.(stages := s.stages[i := Waiting])
    case Acquire => s.(stages := s.stages[i := Calling], held := s.held + 1, calls := s.calls[i := s.calls[i] + 1])
    case Return => s.(stages := s.stages[i := Storing], results := s.results[i := Some(answers[i])])
    case Release => s.(stages := s.stages[i := Done], held := s.held - 1)
  }

  function Count(stages: seq<Stage>, st: Stage): nat {
    if stages == [] then 0
    else Count(stages[..|stages| - 1], st) + if stages[|stages| - 1] == st then 1 else 0
  }

  ghost predicate Inv(s: State, answers: seq<Lookup>) {
    && Shaped(s, answers)
    && s.held == Count(s.stages, Calling) + Count(s.stages, Storing) <= MAX_CONCURRENCY
    && (forall i, j :: 0 <= i < j < |s.stages| && s.stages[i] == Unlaunched ==> s.stages[j] == Unlaunched)
    && forall i :: 0 <= i < |s.stages| ==>
         && s.calls[i] == (if s.stages[i] in {Calling, Storing, Done} then 1 else 0)
         && s.results[i] == if s.stages[i] in {Storing, Done} then Some(answers[i]) else None
  }

  lemma {:induction false} CountUpdate(stages: seq<Stage>, i: nat, now: Stage, st: Stage)
    requires i < |stages|
    ensures Count(stages[i := now], st) ==
      Count(stages, st) - (if stages[i] == st then 1 else 0) + if now == st then 1 else 0
  {
    var n := |stages| - 1;
    if i < n {
      CountUpdate(stages[..n], i, now, st);
      assert stages[i := now][..n] == stages[..n][i := now];
    } else {
      assert stages[i := now][..n] == stages[..n];
    }
  }

  lemma {:induction false} CountInitial(n: nat, st: Stage)
    ensures Count(seq(n, _ => Unlaunched), st) == if st == Unlaunched then n else 0
  {
    if n > 0 {
      CountInitial(n - 1, st);
      assert seq(n, _ => Unlaunched)[..n - 1] == seq(n - 1, _ => Unlaunched);
    }
  }

  lemma InitialInv(answers: seq<Lookup>)
    ensures Inv(Initial(|answers|), answers)
  {
    CountInitial(|answers|, Calling);
    CountInitial(|answers|, Storing);
  }

  lemma MoveKeepsInv(s: State, m: Move, i: nat, answers: seq<Lookup>)
    requires Inv(s, answers) && Enabled(s, m, i)
    ensures Inv(Next(s, m, i, answers), answers)
  {
    var now := Next(s, m, i, answers).stages[i];
    CountUpdate(s.stages, i, now, Calling);
    CountUpdate(s.stages, i, now, Storing);
  }

  ghost predicate Run(states: seq<State>, moves: seq<(Move, nat)>, answers: seq<Lookup>) {
    && |states| == |moves| + 1
    && states[0] == Initial(|answers|)
    && forall k :: 0 <= k < |moves| ==>
         && Shaped(states[k], answers)
         && Enabled(states[k], moves[k].0, moves[k].1)
         && states[k + 1] == Next(states[k], moves[k].0, moves[k].1, answers)
  }

  /** In every interleaving, at every moment, at most ten lookups are in
      flight, none is made twice, and a stored result is the project's own. */
  lemma {:induction false} EveryInterleavingIsBounded(states: seq<State>, moves: seq<(Move, nat)>, answers: seq<Lookup>, k: nat)
    requires Run(states, moves, answers) && k < |states|
    ensures Inv(states[k], answers)
    ensures Count(states[k].stages, Calling) <= 10
    ensures forall i :: 0 <= i < |answers| ==>
      states[k].calls[i] <= 1 && (states[k].results[i].Some? ==> states[k].results[i].value == answers[i])
  {
    if k == 0 {
      InitialInv(answers);
    } else {
      EveryInterleavingIsBounded(states, moves, answers, k - 1);
      MoveKeepsInv(states[k - 1], moves[k - 1].0, moves[k - 1].1, answers);
    }
  }

  // ---------------------------------------------------------------------
  // Progress
  // ---------------------------------------------------------------------

  function StepsLeft(st: Stage): nat {
    match st
    case Unlaunched => 4
    case Waiting => 3
    case Calling => 2
    case Storing => 1
    case Done => 0
  }

  function Remaining(stages: seq<Stage>): nat {
    if stages == [] then 0 else Remaining(stages[..|stages| - 1]) + StepsLeft(stages[|stages| - 1])
  }

  lemma {:induction false} RemainingUpdate(stages: seq<Stage>, i: nat, now: Stage)
    requires i < |stages|
    ensures Remaining(stages[i := now]) == Remaining(stages) - StepsLeft(stages[i]) + StepsLeft(now)
  {
    var n := |stages| - 1;
    if i < n {
      RemainingUpdate(stages[..n], i, now);
      assert stages[i := now][..n] == stages[..n][i := now];
    } else {
      assert stages[i := now][..n] == stages[..n];
    }
  }

  lemma MoveLowersRemaining(s: State, m: Move, i: nat, answers: seq<Lookup>)
    requires Shaped(s, answers) && Enabled(s, m, i)
    ensures Remaining(Next(s, m, i, answers).stages) == Remaining(s.stages) - 1
  {
    RemainingUpdate(s.stages, i, Next(s, m, i, answers).stages[i]);
  }

  lemma {:induction false} RemainingZero(stages: seq<Stage>, i: nat)
    requires Remaining(stages) == 0 && i < |stages|
    ensures stages[i] == Done
  {
    if i < |stages| - 1 {
      RemainingZero(stages[..|stages| - 1], i);
    }
  }

  lemma {:induction false} RemainingPositive(stages: seq<Stage>) returns (i: nat)
    requires Remaining(stages) > 0
    ensures i < |stages| && stages[i] != Done
  {
    var n := |stages| - 1;
    if stages[n] != Done {
      i := n;
    } else {
      i := RemainingPositive(stages[..n]);
    }
  }

  lemma {:induction false} SomeoneHolds(stages: seq<Stage>, st: Stage) returns (i: nat)
    requires Count(stages, st) > 0
    ensures i < |stages| && stages[i] == st
  {
    var n := |stages| - 1;
    if stages[n] == st {
      i := n;
    } else {
      i := SomeoneHolds(stages[..n], st);
    }
  }

  lemma {:induction false} FirstUnlaunched(stages: seq<Stage>, i: nat) returns (k: nat)
    requires i < |stages| && stages[i] == Unlaunched
    ensures k < |stages| && stages[k] == Unlaunched && (k > 0 ==> stages[k - 1] != Unlaunched)
  {
    if i > 0 && stages[i - 1] == Unlaunched {
      k := FirstUnlaunched(stages, i - 1);
    } else {
      k := i;
    }
  }

  /** The filter cannot get stuck: while a goroutine is not done some move is possible. */
  lemma NeverStuck(s: State, answers: seq<Lookup>) returns (m: Move, i: nat)
    requires Inv(s, answers) && Remaining(s.stages) > 0
    ensures Enabled(s, m, i)
  {
    i := RemainingPositive(s.stages);
    match s.stages[i]
    case Unlaunched => i := FirstUnlaunched(s.stages, i); m := Launch;
    case Calling => m := Return;
    case Storing => m := Release; CountUpdate(s.stages, i, Done, Storing);
    case Waiting =>
      if s.held < MAX_CONCURRENCY {
        m := Acquire;
      } else if Count(s.stages, Calling) > 0 {
        i := SomeoneHolds(s.stages, Calling);
        m := Return;
      } else {
        i := SomeoneHolds(s.stages, Storing);
        m := Release;
      }
  }

  // ---------------------------------------------------------------------
  // The method
  // ---------------------------------------------------------------------

  /** The sequential filter: a project stays unless it is known to be a fork. */
  function Kept(projects: seq<string>, answers: seq<Lookup>): seq<string>
    requires |projects| == |answers|
  {
    if projects == [] then []
    else
      var n := |projects| - 1;
      Kept(projects[..n], answers[..n]) + if answers[n].Fork? then [] else [projects[n]]
  }

  /** Where the kept projects stand: wherever the lookup failed or found no fork. */
  lemma {:induction false} KeptPositions(projects: seq<string>, answers: seq<Lookup>) returns (positions: seq<nat>)
    requires |projects| == |answers|
    ensures Picked(Kept(projects, answers), projects, positions)
    ensures forall k :: 0 <= k < |projects| ==> (k in positions <==> answers[k].LookupFailed? || answers[k].NoFork?)
  {
    positions := [];
    if projects != [] {
      var n := |projects| - 1;
      positions := KeptPositions(projects[..n], answers[..n]);
      PickedSnoc(Kept(projects[..n], answers[..n]), projects[..n], positions, projects[n]);
      assert projects == projects[..n] + [projects[n]];
      if !answers[n].Fork? {
        positions := positions + [n];
      }
    }
  }

  /** The loop over the result slots. */
  method CollectResults(projects: seq<string>, results: seq<Option<Lookup>>, ghost answers: seq<Lookup>)
    returns (filtered: seq<string>)
    requires |projects| == |results| == |answers|
    requires forall k :: 0 <= k < |results| ==> results[k] == Some(answers[k])
    ensures filtered == Kept(projects, answers)
    ensures exists positions ::
      && Picked(filtered, projects, positions)
      && forall k :: 0 <= k < |projects| ==> (k in positions <==> answers[k].LookupFailed? || answers[k].NoFork?)
  {
    filtered := [];
    for k := 0 to |projects|
      invariant filtered == Kept(projects[..k], answers[..k])
    {
      assert projects[..k + 1][..k] == projects[..k] && answers[..k + 1][..k] == answers[..k];
      match results[k].value {
        case LookupFailed => filtered := filtered + [projects[k]];
        case NoFork => filtered := filtered + [projects[k]];
        case Fork =>
      }
    }
    assert projects[..|projects|] == projects && answers[..|projects|] == answers;
    ghost var positions := KeptPositions(projects, answers);
  }

  /** Whatever the interleaving, the result is that of asking about one
      project after the other; every project is asked about exactly once; and
      every schedule takes four moves per project. */
  method FilterForks(projects: seq<string>, answers: seq<Lookup>)
    returns (filtered: seq<string>, calls: seq<nat>, moves: nat)
    requires |projects| == |answers|
    ensures filtered == Kept(projects, answers)
    ensures exists positions ::
      && Picked(filtered, projects, positions)
      && forall k :: 0 <= k < |projects| ==> (k in positions <==> answers[k].LookupFailed? || answers[k].NoFork?)
    ensures calls == seq(|projects|, _ => 1)
    ensures moves == 4 * |projects|
  {
    hide Count;
    var n := |projects|;
    var s := Initial(n);
    moves := 0;
    InitialInv(answers);
    RemainingInitial(n);
    while exists m, i :: 0 <= i < n && Enabled(s, m, i)
      invariant Inv(s, answers)
      invariant moves + Remaining(s.stages) == 4 * n
      decreases Remaining(s.stages)
    {
      var m, i :| 0 <= i < n && Enabled(s, m, i);
      MoveKeepsInv(s, m, i, answers);
      MoveLowersRemaining(s, m, i, answers);
      s := Next(s, m, i, answers);
      moves := moves + 1;
    }
    if Remaining(s.stages) > 0 {
      var m, i := NeverStuck(s, answers);
      assert false;
    }
    forall i | 0 <= i < n ensures s.stages[i] == Done {
      RemainingZero(s.stages, i);
    }
    calls := s.calls;
    filtered := CollectResults(projects, s.results, answers);
  }

  lemma {:induction false} RemainingInitial(n: nat)
    ensures Remaining(Initial(n).stages) == 4 * n
  {
    if n > 0 {
      RemainingInitial(n - 1);
      assert Initial(n).stages[..n - 1] == Initial(n - 1).stages;
    }
  }
}
