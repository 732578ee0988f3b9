/** Kubernetes jobs of one project in several generations: lookup, creation and cleanup. */
module JobGenerations {
  import opened Options

  datatype Job = Job(namespace: string, name: string, jobName: string, jobType: string, generation: Option<string>)

  datatype Selector = Selector(jobName: string, jobType: string, namespace: string, generation: Option<string>)

  predicate Matches(j: Job, sel: Selector) {
    && j.namespace == sel.namespace && j.jobName == sel.jobName && j.jobType == sel.jobType
    && (sel.generation.Some? && sel.generation.value != "" ==> j.generation == sel.generation)
  }

  // ---------------------------------------------------------------------
  // Generation labels
  // ---------------------------------------------------------------------

  const INT64_LIMIT: nat := 0x8000_0000_0000_0000

  predicate IsDigit(c: char) { '0' <= c <= '9' }

  function DigitValue(c: char): nat
    requires IsDigit(c)
  {
    c as nat - '0' as nat
  }

  predicate AllDigits(s: string) { forall i :: 0 <= i < |s| ==> IsDigit(s[i]) }

  function ParseDigits(s: string): nat
    requires AllDigits(s)
  {
    if s == [] then 0 else 10 * ParseDigits(s[..|s| - 1]) + DigitValue(s[|s| - 1])
  }

  /** A decimal 64-bit integer with an optional sign. */
  function ParseInt(s: string): Option<int> {
    var signed := s != [] && (s[0] == '-' || s[0] == '+');
    var digits := if signed then s[1..] else s;
    if digits == [] || !AllDigits(digits) then None
    else
      var n: int := ParseDigits(digits);
      if signed && s[0] == '-' then if n <= INT64_LIMIT then Some(-n) else None
      else if n < INT64_LIMIT then Some(n) else None
  }

  function FormatNat(n: nat): string {
    if n < 10 then [('0' as nat + n) as char] else FormatNat(n / 10) + [('0' as nat + n % 10) as char]
  }

  lemma {:induction false} ParseFormatDigits(n: nat)
    ensures FormatNat(n) != [] && AllDigits(FormatNat(n)) && ParseDigits(FormatNat(n)) == n
  {
    if n >= 10 {
      ParseFormatDigits(n / 10);
      assert FormatNat(n)[..|FormatNat(n)| - 1] == FormatNat(n / 10);
    } else {
      assert FormatNat(n)[..0] == [];
    }
  }

  /** The label written for a time reads back as that time. */
  lemma LabelRoundTrip(now: nat)
    requires now < INT64_LIMIT
    ensures ParseInt(FormatNat(now)) == Some(now)
  {
    ParseFormatDigits(now);
    assert IsDigit(FormatNat(now)[0]);
  }

  /** Labels are decimal: each further digit weighs ten times less. */
  lemma DecimalDigits(s: string, c: char)
    requires AllDigits(s) && 48 <= c as int <= 57
    ensures AllDigits(s + [c]) && ParseDigits(s + [c]) == 10 * ParseDigits(s) + (c as int - 48)
    ensures ParseDigits("") == 0
  {
    assert (s + [c])[..|s|] == s;
  }

  /** Only an optional sign and digits are read, and only within 64 bits. */
  lemma ParseIntRange(s: string)
    ensures ParseInt(s).Some? ==> s != [] && -0x8000_0000_0000_0000 <= ParseInt(s).value < 0x8000_0000_0000_0000
    ensures ParseInt(s).Some? ==> forall i :: 0 <= i < |s| ==> IsDigit(s[i]) || (i == 0 && |s| > 1 && s[0] in {'-', '+'})
  {
  }

  lemma SignedLabel(n: nat)
    requires n <= 0x8000_0000_0000_0000
    ensures ParseInt("-" + FormatNat(n)) == Some(0 - n as int)
    ensures ParseInt("+" + FormatNat(n)) == if n < 0x8000_0000_0000_0000 then Some(n) else None
  {
    ParseFormatDigits(n);
    assert ("-" + FormatNat(n))[1..] == FormatNat(n) && ("+" + FormatNat(n))[1..] == FormatNat(n);
  }

  /** Missing and unreadable labels count as 0. */
  function GenerationOf(j: Job): int {
    match j.generation
    case None => 0
    case Some(text) => var parsed := ParseInt(text); if parsed.Some? then parsed.value else 0
  }

  // ---------------------------------------------------------------------
  // Lookup
  // ---------------------------------------------------------------------

  function Matching(jobs: seq<Job>, sel: Selector): seq<Job> {
    if jobs == [] then []
    else
      var last := jobs[|jobs| - 1];
      Matching(jobs[..|jobs| - 1], sel) + if Matches(last, sel) then [last] else []
  }

  lemma {:induction false} MatchingMembers(jobs: seq<Job>, sel: Selector, j: Job)
    ensures j in Matching(jobs, sel) <==> j in jobs && Matches(j, sel)
  {
    if jobs != [] {
      var front, last := jobs[..|jobs| - 1], jobs[|jobs| - 1];
      MatchingMembers(front, sel, j);
      assert jobs == front + [last];
    }
  }

  ghost predicate LeftmostMaximum(jobs: seq<Job>, i: nat) {
    && i < |jobs|
    && (forall k :: 0 <= k < |jobs| ==> GenerationOf(jobs[k]) <= GenerationOf(jobs[i]))
    && (forall k :: 0 <= k < i ==> GenerationOf(jobs[k]) < GenerationOf(jobs[i]))
  }

  datatype Lookup = ListFailed | NotFound | Found(job: Job)

  /** The lookup finds the leftmost job of the highest generation. */
  ghost predicate IsCurrent(jobs: seq<Job>, sel: Selector, r: Lookup) {
    var matching := Matching(jobs, sel);
    match r
    case ListFailed => false
    case NotFound => matching == []
    case Found(job) => exists i: nat :: LeftmostMaximum(matching, i) && matching[i] == job
  }

  lemma CurrentIsUnique(jobs: seq<Job>, sel: Selector, a: Lookup, b: Lookup)
    requires IsCurrent(jobs, sel, a) && IsCurrent(jobs, sel, b)
    ensures a == b
  {
  }

  /** The job at this place has the highest generation of its project and no equal before it. */
  ghost predicate Leads(jobs: seq<Job>, sel: Selector, at: nat) {
    && at < |jobs| && Matches(jobs[at], sel)
    && (forall k :: 0 <= k < |jobs| && Matches(jobs[k], sel) ==> GenerationOf(jobs[k]) <= GenerationOf(jobs[at]))
    && (forall k :: 0 <= k < at && Matches(jobs[k], sel) ==> GenerationOf(jobs[k]) < GenerationOf(jobs[at]))
  }

  ghost predicate LeadsAs(jobs: seq<Job>, sel: Selector, at: nat, job: Job) {
    Leads(jobs, sel, at) && jobs[at] == job
  }

  lemma {:induction false} LeadingIsMaximum(jobs: seq<Job>, sel: Selector, at: nat) returns (i: nat)
    requires Leads(jobs, sel, at)
    ensures LeftmostMaximum(Matching(jobs, sel), i) && Matching(jobs, sel)[i] == jobs[at]
  {
    hide GenerationOf, Matches;
    var front, last := jobs[..|jobs| - 1], jobs[|jobs| - 1];
    if at < |front| {
      i := LeadingIsMaximum(front, sel, at);
    } else {
      i := |Matching(front, sel)|;
      forall k | 0 <= k < i ensures GenerationOf(Matching(front, sel)[k]) < GenerationOf(last) {
        MatchingMembers(front, sel, Matching(front, sel)[k]);
      }
    }
  }

  lemma {:induction false} MaximumLeads(jobs: seq<Job>, sel: Selector, i: nat) returns (at: nat)
    requires LeftmostMaximum(Matching(jobs, sel), i)
    ensures Leads(jobs, sel, at) && jobs[at] == Matching(jobs, sel)[i]
  {
    hide GenerationOf, Matches;
    var front, last := jobs[..|jobs| - 1], jobs[|jobs| - 1];
    var before := Matching(front, sel);
    assert Matches(last, sel) ==> Matching(jobs, sel)[|before|] == last;
    if i < |before| {
      assert forall k :: 0 <= k < |before| ==> before[k] == Matching(jobs, sel)[k];
      at := MaximumLeads(front, sel, i);
    } else {
      at := |front|;
      forall k | 0 <= k < at && Matches(jobs[k], sel) ensures GenerationOf(jobs[k]) < GenerationOf(last) {
        MatchingMembers(front, sel, front[k]);
        var m :| 0 <= m < |before| && before[m] == jobs[k];
        assert Matching(jobs, sel)[m] == before[m];
      }
    }
  }

  lemma CurrentIffLeads(jobs: seq<Job>, sel: Selector, job: Job)
    ensures IsCurrent(jobs, sel, Found(job)) <==> exists at: nat :: LeadsAs(jobs, sel, at, job)
  {
    hide Leads, Matching;
    if IsCurrent(jobs, sel, Found(job)) {
      var i: nat :| LeftmostMaximum(Matching(jobs, sel), i) && Matching(jobs, sel)[i] == job;
      var at := MaximumLeads(jobs, sel, i);
      assert LeadsAs(jobs, sel, at, job);
    }
    if exists at: nat :: LeadsAs(jobs, sel, at, job) {
      var at: nat :| LeadsAs(jobs, sel, at, job);
      var i := LeadingIsMaximum(jobs, sel, at);
    }
  }

  /** Deleting another job leaves the leading one in the lead. */
  lemma {:induction false} WithoutKeepsLeading(jobs: seq<Job>, sel: Selector, at: nat, other: Job) returns (at': nat)
    requires Leads(jobs, sel, at)
    requires jobs[at].namespace != other.namespace || jobs[at].name != other.name
    ensures Leads(Without(jobs, other), sel, at') && Without(jobs, other)[at'] == jobs[at]
  {
    hide GenerationOf, Matches;
    var front, last := jobs[..|jobs| - 1], jobs[|jobs| - 1];
    if at < |front| {
      at' := WithoutKeepsLeading(front, sel, at, other);
    } else {
      at' := |Without(front, other)|;
      forall k | 0 <= k < at' && Matches(Without(front, other)[k], sel)
        ensures GenerationOf(Without(front, other)[k]) < GenerationOf(last)
      {
        WithoutMembers(front, other, Without(front, other)[k]);
      }
    }
  }

  lemma DeletionKeepsCurrent(jobs: seq<Job>, sel: Selector, job: Job, other: Job)
    requires UniqueKeys(jobs) && other in jobs && other != job
    requires IsCurrent(jobs, sel, Found(job))
    ensures IsCurrent(Without(jobs, other), sel, Found(job))
  {
    hide Without, IsCurrent, GenerationOf, Matches;
    CurrentIffLeads(jobs, sel, job);
    var at: nat :| LeadsAs(jobs, sel, at, job);
    assert jobs[at] in jobs;
    if job.namespace == other.namespace && job.name == other.name {
      SameKey(jobs, job, other);
    }
    var at' := WithoutKeepsLeading(jobs, sel, at, other);
    assert LeadsAs(Without(jobs, other), sel, at', job);
    CurrentIffLeads(Without(jobs, other), sel, job);
  }

  lemma {:induction false} SomeMaximum(jobs: seq<Job>) returns (i: nat)
    requires jobs != []
    ensures LeftmostMaximum(jobs, i)
  {
    hide GenerationOf;
    var n := |jobs| - 1;
    if n == 0 {
      i := 0;
    } else {
      i := SomeMaximum(jobs[..n]);
      LeftmostMaximumSnoc(jobs, n, i);
      assert jobs[..n + 1] == jobs;
      i := if GenerationOf(jobs[n]) > GenerationOf(jobs[i]) then n else i;
    }
  }

  lemma SomeLookup(jobs: seq<Job>, sel: Selector) returns (r: Lookup)
    ensures IsCurrent(jobs, sel, r)
  {
    hide GenerationOf, Matching;
    var matching := Matching(jobs, sel);
    if matching == [] {
      r := NotFound;
    } else {
      var i := SomeMaximum(matching);
      r := Found(matching[i]);
    }
  }

  /** A job newer than every other matching one is what any lookup returns. */
  lemma NewestIsFound(jobs: seq<Job>, sel: Selector, created: Job, r: Lookup)
    requires created in jobs && Matches(created, sel)
    requires forall j :: j in jobs && Matches(j, sel) && j != created ==> GenerationOf(j) < GenerationOf(created)
    requires IsCurrent(jobs, sel, r)
    ensures r == Found(created)
  {
    hide GenerationOf, Matching;
    var matching := Matching(jobs, sel);
    MatchingMembers(jobs, sel, created);
    var at :| 0 <= at < |matching| && matching[at] == created;
    if r.Found? {
      var i: nat :| LeftmostMaximum(matching, i) && matching[i] == r.job;
      MatchingMembers(jobs, sel, r.job);
    }
  }

  // ---------------------------------------------------------------------
  // The cluster
  // ---------------------------------------------------------------------

  predicate UniqueKeys(jobs: seq<Job>) {
    forall i, k :: 0 <= i < k < |jobs| ==> jobs[i].namespace != jobs[k].namespace || jobs[i].name != jobs[k].name
  }

  function Without(jobs: seq<Job>, j: Job): seq<Job> {
    if jobs == [] then []
    else
      var last := jobs[|jobs| - 1];
      Without(jobs[..|jobs| - 1], j) + if last.namespace == j.namespace && last.name == j.name then [] else [last]
  }

  lemma {:induction false} WithoutMembers(jobs: seq<Job>, j: Job, k: Job)
    ensures k in Without(jobs, j) <==> k in jobs && !(k.namespace == j.namespace && k.name == j.name)
  {
    if jobs != [] {
      var front, last := jobs[..|jobs| - 1], jobs[|jobs| - 1];
      WithoutMembers(front, j, k);
      assert jobs == front + [last];
    }
  }

  lemma {:induction false} WithoutKeepsUniqueKeys(jobs: seq<Job>, j: Job)
    requires UniqueKeys(jobs)
    ensures UniqueKeys(Without(jobs, j))
  {
    if jobs != [] {
      var front, last := jobs[..|jobs| - 1], jobs[|jobs| - 1];
      WithoutKeepsUniqueKeys(front, j);
      forall i | 0 <= i < |Without(front, j)|
        ensures Without(front, j)[i].namespace != last.namespace || Without(front, j)[i].name != last.name
      {
        var k := Without(front, j)[i];
        WithoutMembers(front, j, k);
        var m :| 0 <= m < |front| && front[m] == k;
        assert jobs[m] == k && jobs[|jobs| - 1] == last;
      }
    }
  }

  method ReadGeneration(j: Job) returns (gen: int)
    ensures gen == GenerationOf(j)
    ensures gen == if j.generation.Some? && ParseInt(j.generation.value).Some? then ParseInt(j.generation.value).value else 0
  {
    gen := 0;
    if j.generation.Some? {
      var parsedGen := ParseInt(j.generation.value);
      if parsedGen.Some? {
        gen := parsedGen.value;
      }
    }
  }

  lemma LeftmostMaximumSnoc(jobs: seq<Job>, i: nat, at: nat)
    requires i < |jobs|
    requires i > 0 ==> LeftmostMaximum(jobs[..i], at)
    ensures if i == 0 || GenerationOf(jobs[i]) > GenerationOf(jobs[at]) then LeftmostMaximum(jobs[..i + 1], i)
            else LeftmostMaximum(jobs[..i + 1], at)
  {
    hide GenerationOf;
    var front, longer := jobs[..i], jobs[..i + 1];
    assert forall k :: 0 <= k < i ==> longer[k] == front[k];
  }

  class Cluster {
    var jobs: seq<Job>
    ghost var seen: seq<seq<Job>>

    constructor (jobs: seq<Job>)
      ensures this.jobs == jobs && seen == [jobs]
    {
      this.jobs := jobs;
      seen := [jobs];
    }

    method GetJobByLabel(sel: Selector, listFails: bool) returns (r: Lookup)
      ensures listFails <==> r == ListFailed
      ensures !listFails ==> IsCurrent(jobs, sel, r)
      ensures r.Found? ==>
        && r.job in jobs
        && r.job.namespace == sel.namespace && r.job.jobName == sel.jobName && r.job.jobType == sel.jobType
        && (sel.generation.None? || sel.generation.value == "" || r.job.generation == sel.generation)
      ensures r.NotFound? ==> forall j :: j in jobs ==>
        || j.namespace != sel.namespace || j.jobName != sel.jobName || j.jobType != sel.jobType
        || (sel.generation.Some? && sel.generation.value != "" && j.generation != sel.generation)
    {
      if listFails {
        return ListFailed;
      }
      hide GenerationOf, Matching;
      var allJobs := Matching(jobs, sel);
      forall j ensures j in allJobs <==> j in jobs && Matches(j, sel) {
        MatchingMembers(jobs, sel, j);
      }
      if |allJobs| == 0 {
        return NotFound;
      }
      var currentJob: Option<Job> := None;
      var maxGen := -1;
      ghost var at: nat := 0;
      for i := 0 to |allJobs|
        invariant i == 0 ==> currentJob.None?
        invariant i > 0 ==> LeftmostMaximum(allJobs[..i], at)
        invariant i > 0 ==> currentJob == Some(allJobs[at]) && maxGen == GenerationOf(allJobs[at])
      {
        var gen := ReadGeneration(allJobs[i]);
        LeftmostMaximumSnoc(allJobs, i, at);
        if gen > maxGen || currentJob.None? {
          maxGen := gen;
          currentJob := Some(allJobs[i]);
          at := i;
        }
      }
      assert allJobs[..|allJobs|] == allJobs;
      r := Found(currentJob.value);
    }

    /** Background deletion by namespace and name; a missing job is no error. */
    method DeleteJob(j: Job, fails: bool)
      modifies this
      ensures jobs == if fails then old(jobs) else Without(old(jobs), j)
      ensures seen == old(seen) + [jobs]
    {
      if !fails {
        jobs := Without(jobs, j);
      }
      seen := seen + [jobs];
    }

    /** Create the job under the current time's generation. The list may show it anywhere. */
    method CreateJobWithGeneration(job: Job, now: nat, at: nat, createFails: bool) returns (created: Option<Job>)
      requires at <= |jobs|
      modifies this
      ensures createFails ==> created.None? && jobs == old(jobs) && seen == old(seen)
      ensures !createFails ==>
        && created == Some(job.(generation := Some(FormatNat(now))))
        && jobs == old(jobs)[..at] + [created.value] + old(jobs)[at..]
        && seen == old(seen) + [jobs]
    {
      if createFails {
        return None;
      }
      var labelled := job.(generation := Some(FormatNat(now)));
      jobs := jobs[..at] + [labelled] + jobs[at..];
      seen := seen + [jobs];
      created := Some(labelled);
    }

    /** Delete the matching jobs of other generations. Whichever deletions
        succeed, a job that lookup returns is returned at every moment; each
        deletion that can succeed does, whatever became of the others; this
        generation and other projects' jobs stay. */
    method CleanupOldGenerations(sel: Selector, currentGen: string, listFails: bool, deleteFails: Job -> bool)
      requires UniqueKeys(jobs)
      modifies this
      ensures old(seen) <= seen
      ensures forall j: Job :: j.generation == Some(currentGen) && IsCurrent(old(jobs), sel, Found(j)) ==>
        forall k :: |old(seen)| <= k < |seen| ==> IsCurrent(seen[k], sel, Found(j))
      ensures forall j :: j in jobs <==>
        && j in old(jobs)
        && (listFails || deleteFails(j) || !Matches(j, sel) || j.generation == Some(currentGen))
      ensures sel.generation.None? ==> forall j :: j in jobs <==>
        && j in old(jobs)
        && (listFails || deleteFails(j) || j.generation == Some(currentGen)
            || j.namespace != sel.namespace || j.jobName != sel.jobName || j.jobType != sel.jobType)
    {
      hide GenerationOf, Matching, Without, IsCurrent;
      if listFails {
        return;
      }
      var allJobs := Matching(jobs, sel);
      ghost var was := jobs;
      for i := 0 to |allJobs|
        invariant UniqueKeys(jobs) && old(seen) <= seen
        invariant forall j: Job :: j.generation == Some(currentGen) && IsCurrent(was, sel, Found(j)) ==>
          && IsCurrent(jobs, sel, Found(j))
          && forall k :: |old(seen)| <= k < |seen| ==> IsCurrent(seen[k], sel, Found(j))
        invariant forall j :: j in jobs ==> j in was
        invariant forall j :: j in was ==>
          j in jobs || !(deleteFails(j) || !Matches(j, sel) || j.generation == Some(currentGen))
        invariant forall k :: 0 <= k < i && !deleteFails(allJobs[k]) && allJobs[k].generation != Some(currentGen) ==>
          allJobs[k] !in jobs
      {
        var job := allJobs[i];
        MatchingMembers(was, sel, job);
        if job.generation.None? || job.generation.value != currentGen {
          DeleteOld(sel, job, deleteFails(job), was);
        }
      }
      forall j | j in jobs && Matches(j, sel) && !deleteFails(j) ensures j.generation == Some(currentGen) {
        MatchingMembers(was, sel, j);
        var k :| 0 <= k < |allJobs| && allJobs[k] == j;
      }
    }

    /** One deletion of the cleanup. */
    method DeleteOld(sel: Selector, job: Job, fails: bool, ghost was: seq<Job>)
      requires UniqueKeys(was) && UniqueKeys(jobs) && job in was && forall j :: j in jobs ==> j in was
      modifies this
      ensures UniqueKeys(jobs) && seen == old(seen) + [jobs]
      ensures forall j :: j in jobs <==> j in old(jobs) && (fails || j != job)
      ensures forall j :: j != job && IsCurrent(old(jobs), sel, Found(j)) ==> IsCurrent(jobs, sel, Found(j))
    {
      hide IsCurrent, Without;
      forall j ensures j in Without(jobs, job) <==> j in jobs && j != job {
        WithoutMembers(jobs, job, j);
        if j in jobs && j.namespace == job.namespace && j.name == job.name {
          SameKey(was, j, job);
        }
      }
      WithoutKeepsUniqueKeys(jobs, job);
      forall j | j != job && IsCurrent(jobs, sel, Found(j)) ensures IsCurrent(Without(jobs, job), sel, Found(j)) {
        if job in jobs {
          DeletionKeepsCurrent(jobs, sel, j, job);
        } else {
          WithoutAbsent(jobs, job);
        }
      }
      DeleteJob(job, fails);
    }
  }

  lemma {:induction false} WithoutAbsent(jobs: seq<Job>, j: Job)
    requires forall k :: k in jobs ==> k.namespace != j.namespace || k.name != j.name
    ensures Without(jobs, j) == jobs
  {
    if jobs != [] {
      WithoutAbsent(jobs[..|jobs| - 1], j);
    }
  }

  lemma SameKey(jobs: seq<Job>, a: Job, b: Job)
    requires UniqueKeys(jobs) && a in jobs && b in jobs && a.namespace == b.namespace && a.name == b.name
    ensures a == b
  {
  }

  /** No matching job is newer than the given time, and those in front are older. */
  ghost predicate OlderThan(jobs: seq<Job>, sel: Selector, now: nat, at: nat) {
    forall k :: 0 <= k < |jobs| && Matches(jobs[k], sel) ==>
      GenerationOf(jobs[k]) <= now && (k < at ==> GenerationOf(jobs[k]) < now)
  }

  lemma InsertedLeadsIff(jobs: seq<Job>, sel: Selector, job: Job, at: nat)
    requires at <= |jobs| && Matches(job, sel) && GenerationOf(job) >= 0
    requires UniqueKeys(jobs) && forall j :: j in jobs ==> j.namespace != job.namespace || j.name != job.name
    ensures IsCurrent(jobs[..at] + [job] + jobs[at..], sel, Found(job)) <==> OlderThan(jobs, sel, GenerationOf(job), at)
  {
    hide GenerationOf, Matches, IsCurrent;
    var more := jobs[..at] + [job] + jobs[at..];
    assert more[at] == job;
    assert forall k :: 0 <= k < |jobs| ==> jobs[k] == more[if k < at then k else k + 1];
    assert forall k :: 0 <= k < |more| ==> more[k] == if k < at then jobs[k] else if k == at then job else jobs[k - 1];
    CurrentIffLeads(more, sel, job);
    assert forall k :: 0 <= k < |more| && more[k] == job ==> k == at;
    assert LeadsAs(more, sel, at, job) <==> Leads(more, sel, at);
    assert Leads(more, sel, at) <==> OlderThan(jobs, sel, GenerationOf(job), at);
  }

  /** Creating a generation and cleaning up after it. From the creation
      through the cleanup every lookup returns the created job, exactly if at
      the start no matching job was newer and none listed before it as new;
      a full cleanup leaves it and the matching jobs of the same second. */
  method CreateAndCleanUp(c: Cluster, job: Job, sel: Selector, now: nat, at: nat, deleteFails: Job -> bool) returns (created: Job)
    requires UniqueKeys(c.jobs) && now < INT64_LIMIT && at <= |c.jobs|
    requires Matches(job, sel) && sel.generation.None?
    requires forall j :: j in c.jobs ==> j.namespace != job.namespace || j.name != job.name
    modifies c
    ensures created == job.(generation := Some(FormatNat(now))) && created in c.jobs
    ensures old(c.seen) <= c.seen && |c.seen| > |old(c.seen)|
    ensures (forall k, r :: |old(c.seen)| <= k < |c.seen| && IsCurrent(c.seen[k], sel, r) ==> r == Found(created))
       <==> OlderThan(old(c.jobs), sel, now, at)
    ensures (forall j :: !deleteFails(j)) ==> forall j :: j in c.jobs && Matches(j, sel) ==>
      j == created || (j in old(c.jobs) && j.generation == created.generation)
  {
    LabelRoundTrip(now);
    assert GenerationOf(job.(generation := Some(FormatNat(now)))) == now;
    hide GenerationOf, IsCurrent, OlderThan;
    var made := c.CreateJobWithGeneration(job, now, at, false);
    created := made.value;
    assert c.jobs[at] == created;
    InsertedLeadsIff(old(c.jobs), sel, created, at);
    ghost var first := |old(c.seen)|;
    assert c.seen[first] == c.jobs;
    forall j | j in c.jobs && j != created ensures j in old(c.jobs) {
    }
    c.CleanupOldGenerations(sel, FormatNat(now), false, deleteFails);
    if OlderThan(old(c.jobs), sel, now, at) {
      forall k, r | first <= k < |c.seen| && IsCurrent(c.seen[k], sel, r) ensures r == Found(created) {
        CurrentIsUnique(c.seen[k], sel, r, Found(created));
      }
    } else {
      ghost var r := SomeLookup(c.seen[first], sel);
    }
  }
}
