/** The three layers that turn a user's claimed groups into the list used for authorization. */
module GroupValidation {
  import opened Options
  import opened Sequences

  const MAX_GROUP_NAME_LENGTH := 256
  const MAX_GROUPS_PER_USER := 100

  /** The optional policy; a pattern is the set of names it matches. */
  datatype FilterConfig = FilterConfig(allowedPrefix: string, allowedPattern: Option<string -> bool>)

  // ---------------------------------------------------------------------
  // Characters and single names
  // ---------------------------------------------------------------------

  /** Unicode white space, as strings.TrimSpace sees it. */
  predicate IsSpace(c: char) {
    c in {'\t', '\n', '\r', ' ', '\U{0B}', '\U{0C}', '\U{85}', '\U{A0}', '\U{1680}', '\U{2028}', '\U{2029}',
          '\U{202F}', '\U{205F}', '\U{3000}'} || '\U{2000}' <= c <= '\U{200A}'
  }

  predicate IsAllowed(c: char) {
    'a' <= c <= 'z' || 'A' <= c <= 'Z' || '0' <= c <= '9' || c in {'.', '_', '@', '/', ',', '=', '-', ' '}
  }

  function TrimLeft(s: string): (r: string)
    ensures r == [] || !IsSpace(r[0])
    ensures s != [] && !IsSpace(s[0]) ==> r == s
    ensures forall c :: c in r ==> c in s
  {
    if s != [] && IsSpace(s[0]) then TrimLeft(s[1..]) else s
  }

  function TrimRight(s: string): (r: string)
    ensures r == [] || !IsSpace(r[|r| - 1])
    ensures s != [] && !IsSpace(s[|s| - 1]) ==> r == s
    ensures r <= s
  {
    if s != [] && IsSpace(s[|s| - 1]) then TrimRight(s[..|s| - 1]) else s
  }

  function TrimSpace(s: string): string { TrimRight(TrimLeft(s)) }

  predicate Trimmed(s: string) { s == [] || (!IsSpace(s[0]) && !IsSpace(s[|s| - 1])) }

  /** Only ASCII letters have a lower case here: the pipeline lowers no name
      that holds any other letter. */
  function LowerChar(c: char): char {
    if 'A' <= c <= 'Z' then (c as int - 'A' as int + 'a' as int) as char else c
  }

  function ToLower(s: string): (r: string)
    ensures |r| == |s|
  {
    seq(|s|, i requires 0 <= i < |s| => LowerChar(s[i]))
  }

  predicate IsLower(s: string) { forall i :: 0 <= i < |s| ==> LowerChar(s[i]) == s[i] }

  predicate ValidName(s: string) {
    0 < |s| <= MAX_GROUP_NAME_LENGTH && forall i :: 0 <= i < |s| ==> IsAllowed(s[i])
  }

  function Normal(s: string): string { ToLower(TrimSpace(s)) }

  method ValidateGroupName(name: string) returns (ok: bool)
    ensures ok == ValidName(name)
    ensures ok <==> 0 < |name| <= 256 && forall i :: 0 <= i < |name| ==>
      'a' <= name[i] <= 'z' || 'A' <= name[i] <= 'Z' || '0' <= name[i] <= '9' || name[i] in "._@/,= -"
  {
    if |name| == 0 {
      return false;
    }
    if |name| > MAX_GROUP_NAME_LENGTH {
      return false;
    }
    ok := forall i :: 0 <= i < |name| ==> IsAllowed(name[i]);
  }

  // ---------------------------------------------------------------------
  // The layers
  // ---------------------------------------------------------------------

  function Truncated(groups: seq<string>): seq<string> {
    if |groups| > MAX_GROUPS_PER_USER then groups[..MAX_GROUPS_PER_USER] else groups
  }

  function Sanitized(groups: seq<string>): seq<string> {
    if groups == [] then []
    else
      var n := |groups| - 1;
      var name := TrimSpace(groups[n]);
      Sanitized(groups[..n]) + if ValidName(name) then [name] else []
  }

  function Deduplicated(groups: seq<string>): seq<string> {
    if groups == [] then []
    else
      var n := |groups| - 1;
      var rest, name := Deduplicated(groups[..n]), Normal(groups[n]);
      if name == "" || name in rest then rest else rest + [name]
  }

  predicate Permitted(name: string, config: FilterConfig) {
    && config.allowedPrefix <= name
    && (config.allowedPattern.Some? ==> config.allowedPattern.value(name))
  }

  function Filtered(groups: seq<string>, config: FilterConfig): seq<string> {
    if groups == [] then []
    else
      var n := |groups| - 1;
      Filtered(groups[..n], config) + if Permitted(groups[n], config) then [groups[n]] else []
  }

  function Pipeline(groups: seq<string>, config: FilterConfig): seq<string> {
    Filtered(Deduplicated(Sanitized(Truncated(groups))), config)
  }

  method SanitizeGroups(claimed: seq<string>) returns (validated: seq<string>)
    ensures validated == Sanitized(Truncated(claimed))
    ensures exists positions: seq<nat> ::
      && Increasing(positions, if |claimed| < 100 then |claimed| else 100) && |validated| == |positions|
      && (forall a :: 0 <= a < |positions| ==> validated[a] == TrimSpace(claimed[positions[a]]))
      && (forall k :: 0 <= k < |claimed| && k < 100 ==> (k in positions <==> ValidName(TrimSpace(claimed[k]))))
  {
    hide TrimSpace, ValidName;
    var groups := claimed;
    if |groups| > MAX_GROUPS_PER_USER {
      groups := groups[..MAX_GROUPS_PER_USER];
    }
    validated := [];
    ghost var positions: seq<nat> := [];
    for i := 0 to |groups|
      invariant validated == Sanitized(groups[..i])
      invariant Increasing(positions, i) && |validated| == |positions|
      invariant forall a :: 0 <= a < |positions| ==> validated[a] == TrimSpace(claimed[positions[a]])
      invariant forall k :: 0 <= k < i ==> (k in positions <==> ValidName(TrimSpace(claimed[k])))
    {
      assert groups[..i + 1][..i] == groups[..i];
      var group := TrimSpace(groups[i]);
      var ok := ValidateGroupName(group);
      IncreasingSnoc(positions, i);
      if !ok {
        continue;
      }
      validated := validated + [group];
      positions := positions + [i];
    }
    assert groups[..|groups|] == groups;
  }

  method NormalizeGroups(groups: seq<string>) returns (normalized: seq<string>)
    ensures |normalized| == |groups|
    ensures forall i :: 0 <= i < |groups| ==> normalized[i] == Normal(groups[i])
  {
    normalized := [];
    for i := 0 to |groups|
      invariant |normalized| == i
      invariant forall k :: 0 <= k < i ==> normalized[k] == Normal(groups[k])
    {
      normalized := normalized + [ToLower(TrimSpace(groups[i]))];
    }
  }

  /** The group's normal form occurs here first. */
  predicate FirstOccurs(groups: seq<string>, k: nat)
    requires k < |groups|
  {
    Normal(groups[k]) != "" && forall m :: 0 <= m < k ==> Normal(groups[m]) != Normal(groups[k])
  }

  lemma {:induction false} DeduplicatedMembers(groups: seq<string>, g: string)
    ensures g in Deduplicated(groups) <==> g != "" && exists m :: 0 <= m < |groups| && Normal(groups[m]) == g
  {
    hide Normal;
    if groups != [] {
      var n := |groups| - 1;
      DeduplicatedMembers(groups[..n], g);
      assert forall m :: 0 <= m < n ==> groups[..n][m] == groups[m];
    }
  }

  lemma DeduplicatedStep(groups: seq<string>)
    requires groups != []
    ensures var n := |groups| - 1;
            var rest := Deduplicated(groups[..n]);
            && Deduplicated(groups) == (if FirstOccurs(groups, n) then rest + [Normal(groups[n])] else rest)
            && forall k :: 0 <= k < n ==> FirstOccurs(groups[..n], k) == FirstOccurs(groups, k)
  {
    hide Normal;
    var n := |groups| - 1;
    DeduplicatedMembers(groups[..n], Normal(groups[n]));
    assert forall m :: 0 <= m < n ==> groups[..n][m] == groups[m];
  }

  /** Which groups layer 2 keeps: each name where it first occurs. */
  lemma {:induction false} DeduplicatedPositions(groups: seq<string>) returns (positions: seq<nat>)
    ensures Increasing(positions, |groups|) && |Deduplicated(groups)| == |positions|
    ensures forall a :: 0 <= a < |positions| ==> Deduplicated(groups)[a] == Normal(groups[positions[a]])
    ensures forall k :: 0 <= k < |groups| ==> (k in positions <==> FirstOccurs(groups, k))
  {
    positions := [];
    if groups != [] {
      var n := |groups| - 1;
      DeduplicatedStep(groups);
      hide Normal, FirstOccurs, Deduplicated;
      positions := DeduplicatedPositions(groups[..n]);
      IncreasingSnoc(positions, n);
      if FirstOccurs(groups, n) {
        positions := positions + [n];
      }
    }
  }

  method NormalizeAndValidateGroups(groups: seq<string>) returns (validated: seq<string>)
    ensures validated == Deduplicated(groups)
    ensures exists positions: seq<nat> ::
      && Increasing(positions, |groups|) && |validated| == |positions|
      && (forall a :: 0 <= a < |positions| ==> validated[a] == Normal(groups[positions[a]]))
      && (forall k :: 0 <= k < |groups| ==> (k in positions <==>
            Normal(groups[k]) != "" && forall m :: 0 <= m < k ==> Normal(groups[m]) != Normal(groups[k])))
  {
    hide Normal;
    var seen: set<string> := {};
    validated := [];
    var normalizedGroups := NormalizeGroups(groups);
    for i := 0 to |normalizedGroups|
      invariant validated == Deduplicated(groups[..i])
      invariant forall g :: g in seen <==> g in validated
    {
      assert groups[..i + 1][..i] == groups[..i];
      var group := normalizedGroups[i];
      if group == "" {
        continue;
      }
      if group in seen {
        continue;
      }
      seen := seen + {group};
      validated := validated + [group];
    }
    assert groups[..|groups|] == groups;
    hide Deduplicated;
    ghost var positions := DeduplicatedPositions(groups);
  }

  /** Which groups layer 3 keeps: those the prefix and the pattern admit. */
  lemma {:induction false} FilteredPositions(groups: seq<string>, config: FilterConfig) returns (positions: seq<nat>)
    ensures Picked(Filtered(groups, config), groups, positions)
    ensures forall k :: 0 <= k < |groups| ==> (k in positions <==>
      config.allowedPrefix <= groups[k] && (config.allowedPattern.None? || config.allowedPattern.value(groups[k])))
  {
    positions := [];
    if groups != [] {
      var n := |groups| - 1;
      positions := FilteredPositions(groups[..n], config);
      PickedSnoc(Filtered(groups[..n], config), groups[..n], positions, groups[n]);
      assert groups == groups[..n] + [groups[n]];
      if Permitted(groups[n], config) {
        positions := positions + [n];
      }
    }
  }

  method FilterGroupsByPolicy(groups: seq<string>, config: FilterConfig) returns (filtered: seq<string>)
    ensures filtered == Filtered(groups, config)
    ensures exists positions ::
      && Picked(filtered, groups, positions)
      && forall k :: 0 <= k < |groups| ==> (k in positions <==>
           config.allowedPrefix <= groups[k] && (config.allowedPattern.None? || config.allowedPattern.value(groups[k])))
  {
    ghost var positions := FilteredPositions(groups, config);
    if config.allowedPrefix == "" && config.allowedPattern.None? {
      AllPermitted(groups, config);
      return groups;
    }
    hide Picked;
    filtered := [];
    for i := 0 to |groups|
      invariant filtered == Filtered(groups[..i], config)
    {
      assert groups[..i + 1][..i] == groups[..i];
      var group := groups[i];
      if config.allowedPrefix != "" {
        if !(config.allowedPrefix <= group) {
          continue;
        }
      }
      if config.allowedPattern.Some? {
        if !config.allowedPattern.value(group) {
          continue;
        }
      }
      filtered := filtered + [group];
    }
    assert groups[..|groups|] == groups;
  }

  method ValidateAndNormalizeGroups(groups: seq<string>, config: FilterConfig) returns (validated: seq<string>)
    ensures validated == Pipeline(groups, config)
  {
    var sanitized := SanitizeGroups(groups);
    var normalized := NormalizeAndValidateGroups(sanitized);
    validated := FilterGroupsByPolicy(normalized, config);
  }

  // ---------------------------------------------------------------------
  // The result is canonical
  // ---------------------------------------------------------------------

  predicate Canonical(name: string) {
    ValidName(name) && Trimmed(name) && IsLower(name)
  }

  /** The claimed group stands for the name once trimmed and lowered, if it is acceptable at all. */
  predicate StandsFor(group: string, name: string) {
    ValidName(TrimSpace(group)) && Normal(group) == name
  }

  lemma NormalOfValid(group: string)
    requires ValidName(TrimSpace(group))
    ensures Canonical(Normal(group)) && Normal(TrimSpace(group)) == Normal(group) && Normal(group) != ""
  {
  }

  lemma CanonicalIsFixed(name: string)
    requires Canonical(name)
    ensures TrimSpace(name) == name && Normal(name) == name && name != ""
  {
  }

  /** Where a name first appears among the claimed groups, or their number if nowhere. */
  function FirstClaim(groups: seq<string>, name: string): (i: nat)
    ensures i <= |groups|
    ensures i < |groups| ==> StandsFor(groups[i], name)
    ensures forall k :: 0 <= k < i ==> !StandsFor(groups[k], name)
  {
    if groups == [] || StandsFor(groups[0], name) then 0 else 1 + FirstClaim(groups[1..], name)
  }

  lemma FirstClaimSnoc(groups: seq<string>, last: string, name: string)
    ensures FirstClaim(groups + [last], name) ==
      if FirstClaim(groups, name) < |groups| then FirstClaim(groups, name)
      else if StandsFor(last, name) then |groups| else |groups| + 1
  {
    hide StandsFor;
    var longer := groups + [last];
    var i, k := FirstClaim(groups, name), FirstClaim(longer, name);
    assert forall m :: 0 <= m < |groups| ==> longer[m] == groups[m];
    assert longer[|groups|] == last;
    assert i < |groups| ==> StandsFor(longer[i], name);
  }

  /** A list in the order in which its names are first claimed. */
  ghost predicate InClaimOrder(names: seq<string>, groups: seq<string>) {
    forall i, j :: 0 <= i < j < |names| ==> FirstClaim(groups, names[i]) < FirstClaim(groups, names[j])
  }

  function Cleaned(groups: seq<string>): seq<string> { Deduplicated(Sanitized(groups)) }

  lemma CleanedSnoc(front: seq<string>, last: string)
    ensures Cleaned(front + [last]) ==
      if ValidName(TrimSpace(last)) && Normal(last) !in Cleaned(front) then Cleaned(front) + [Normal(last)]
      else Cleaned(front)
  {
    assert (front + [last])[..|front|] == front;
    if ValidName(TrimSpace(last)) {
      NormalOfValid(last);
      var sanitized := Sanitized(front) + [TrimSpace(last)];
      assert sanitized[..|sanitized| - 1] == Sanitized(front);
      assert Sanitized(front + [last]) == sanitized;
    } else {
      assert Sanitized(front + [last]) == Sanitized(front);
    }
  }

  /** The two first layers together: exactly the acceptable names, in claim order. */
  lemma {:induction false} CleanedIsFirstClaims(groups: seq<string>)
    ensures var names := Cleaned(groups);
            && InClaimOrder(names, groups)
            && |names| <= |groups|
            && (forall n :: n in names ==> Canonical(n))
            && (forall n :: n in names <==> FirstClaim(groups, n) < |groups|)
  {
    hide Cleaned, FirstClaim, Canonical, ValidName, Normal, TrimSpace;
    if groups == [] {
      assert Cleaned(groups) == [] by { NothingCleaned(); }
    } else {
      var front, last := groups[..|groups| - 1], groups[|groups| - 1];
      assert groups == front + [last];
      CleanedIsFirstClaims(front);
      CleanedSnoc(front, last);
      forall n ensures FirstClaim(groups, n) ==
        if FirstClaim(front, n) < |front| then FirstClaim(front, n)
        else if StandsFor(last, n) then |front| else |front| + 1
      {
        FirstClaimSnoc(front, last, n);
      }
      if ValidName(TrimSpace(last)) {
        NormalOfValid(last);
      }
    }
  }

  lemma NothingCleaned()
    ensures Cleaned([]) == []
  {
  }

  lemma {:induction false} FilteredMembers(names: seq<string>, config: FilterConfig, n: string)
    ensures n in Filtered(names, config) <==> n in names && Permitted(n, config)
    ensures |Filtered(names, config)| <= |names|
  {
    hide Permitted;
    if names != [] {
      var front, last := names[..|names| - 1], names[|names| - 1];
      FilteredMembers(front, config, n);
      assert names == front + [last];
    }
  }

  lemma {:induction false} FilteredKeepsOrder(names: seq<string>, groups: seq<string>, config: FilterConfig)
    requires InClaimOrder(names, groups)
    ensures InClaimOrder(Filtered(names, config), groups)
  {
    hide FirstClaim, Permitted;
    if names != [] {
      var front, last := names[..|names| - 1], names[|names| - 1];
      var kept := Filtered(front, config);
      FilteredKeepsOrder(front, groups, config);
      forall i | 0 <= i < |kept| ensures FirstClaim(groups, kept[i]) < FirstClaim(groups, last) {
        FilteredMembers(front, config, kept[i]);
        var k :| 0 <= k < |front| && front[k] == kept[i];
        assert names[k] == kept[i];
      }
      assert Filtered(names, config) == if Permitted(last, config) then kept + [last] else kept;
    }
  }

  /** The output holds exactly the names that some acceptable group among the
      first hundred stands for and that have the prefix and match the pattern,
      each once, in the order of their first claims; and all of them are short,
      lower-case, trimmed and in the alphabet. */
  lemma PipelineIsCanonical(groups: seq<string>, config: FilterConfig)
    ensures var out := Pipeline(groups, config);
            && NoDuplicates(out) && |out| <= 100
            && (forall n :: n in out ==> Canonical(n))
            && (forall n :: n in out <==>
                  && config.allowedPrefix <= n
                  && (config.allowedPattern.None? || config.allowedPattern.value(n))
                  && exists i :: 0 <= i < |groups| && i < 100 && StandsFor(groups[i], n))
            && InClaimOrder(out, Truncated(groups))
  {
    hide Sanitized, Deduplicated, Filtered, StandsFor, Canonical;
    var claims := Truncated(groups);
    CleanedIsFirstClaims(claims);
    FilteredKeepsOrder(Cleaned(claims), claims, config);
    forall n ensures n in Pipeline(groups, config) <==> n in Cleaned(claims) && Permitted(n, config) {
      FilteredMembers(Cleaned(claims), config, n);
    }
    FilteredMembers(Cleaned(claims), config, "");
    assert forall i :: 0 <= i < |claims| ==> claims[i] == groups[i];
  }

  /** Canonical names, letter by letter. */
  lemma CanonicalNames(n: string)
    ensures Canonical(n) <==>
      && 0 < |n| <= 256 && n[0] != ' ' && n[|n| - 1] != ' '
      && forall i :: 0 <= i < |n| ==> 'a' <= n[i] <= 'z' || '0' <= n[i] <= '9' || n[i] in "._@/,= -"
  {
    if Canonical(n) {
      forall i | 0 <= i < |n| ensures 'a' <= n[i] <= 'z' || '0' <= n[i] <= '9' || n[i] in "._@/,= -" {
        assert IsAllowed(n[i]) && LowerChar(n[i]) == n[i];
      }
    } else {
      assert 0 < |n| <= 256 ==> Trimmed(n) || IsSpace(n[0]) || IsSpace(n[|n| - 1]);
    }
  }

  // ---------------------------------------------------------------------
  // Trimming and lowering
  // ---------------------------------------------------------------------

  /** Trimming takes off white space at both ends and nothing else. */
  lemma TrimSpaceSplits(s: string) returns (before: string, after: string)
    ensures s == before + TrimSpace(s) + after && Trimmed(TrimSpace(s))
    ensures forall c :: c in before || c in after ==> IsSpace(c)
  {
    before := TrimLeftSplits(s);
    after := TrimRightSplits(TrimLeft(s));
  }

  lemma {:induction false} TrimLeftSplits(s: string) returns (before: string)
    ensures s == before + TrimLeft(s) && forall c :: c in before ==> IsSpace(c)
  {
    if s != [] && IsSpace(s[0]) {
      var rest := TrimLeftSplits(s[1..]);
      before := [s[0]] + rest;
      assert s == [s[0]] + s[1..];
    } else {
      before := [];
    }
  }

  lemma {:induction false} TrimRightSplits(s: string) returns (after: string)
    ensures s == TrimRight(s) + after && forall c :: c in after ==> IsSpace(c)
  {
    if s != [] && IsSpace(s[|s| - 1]) {
      var rest := TrimRightSplits(s[..|s| - 1]);
      after := rest + [s[|s| - 1]];
      assert s == s[..|s| - 1] + [s[|s| - 1]];
    } else {
      after := [];
    }
  }

  /** In ASCII white space is the blank and the control characters 9 to 13;
      none beyond ASCII is allowed in a name. */
  lemma WhiteSpace(c: char)
    ensures c as int < 0x80 ==> (IsSpace(c) <==> c as int == 32 || 9 <= c as int <= 13)
    ensures c as int >= 0x80 ==> !IsAllowed(c)
  {
  }

  /** Lower-casing moves the capitals by 32 and nothing else. */
  lemma Lowered(c: char)
    ensures LowerChar(c) as int == if 65 <= c as int <= 90 then c as int + 32 else c as int
  {
  }

  predicate SameButForCase(a: string, b: string) {
    |a| == |b| && forall i :: 0 <= i < |a| ==> LowerChar(a[i]) == LowerChar(b[i])
  }

  lemma {:induction false} TrimLeftIgnoresCase(a: string, b: string)
    requires SameButForCase(a, b)
    ensures SameButForCase(TrimLeft(a), TrimLeft(b))
  {
    if a != [] {
      assert IsSpace(a[0]) <==> IsSpace(b[0]);
      if IsSpace(a[0]) {
        TrimLeftIgnoresCase(a[1..], b[1..]);
      }
    }
  }

  lemma {:induction false} TrimRightIgnoresCase(a: string, b: string)
    requires SameButForCase(a, b)
    ensures SameButForCase(TrimRight(a), TrimRight(b))
  {
    if a != [] {
      var n := |a| - 1;
      assert IsSpace(a[n]) <==> IsSpace(b[n]);
      if IsSpace(a[n]) {
        TrimRightIgnoresCase(a[..n], b[..n]);
      }
    }
  }

  lemma NameIgnoresCase(a: string, b: string)
    requires SameButForCase(a, b)
    ensures ValidName(TrimSpace(a)) == ValidName(TrimSpace(b)) && Normal(a) == Normal(b)
  {
    TrimLeftIgnoresCase(a, b);
    TrimRightIgnoresCase(TrimLeft(a), TrimLeft(b));
    var x, y := TrimSpace(a), TrimSpace(b);
    assert forall i :: 0 <= i < |x| ==> IsAllowed(x[i]) == IsAllowed(y[i]);
  }

  lemma {:induction false} CleanedIgnoresCase(a: seq<string>, b: seq<string>)
    requires |a| == |b| && forall i :: 0 <= i < |a| ==> SameButForCase(a[i], b[i])
    ensures Cleaned(a) == Cleaned(b)
  {
    hide Cleaned, SameButForCase, Normal, ValidName, TrimSpace;
    if a != [] {
      var n := |a| - 1;
      CleanedIgnoresCase(a[..n], b[..n]);
      NameIgnoresCase(a[n], b[n]);
      CleanedSnoc(a[..n], a[n]);
      CleanedSnoc(b[..n], b[n]);
      assert a == a[..n] + [a[n]] && b == b[..n] + [b[n]];
    }
  }

  /** Claims that differ only in case have the same result. */
  lemma PipelineIgnoresCase(a: seq<string>, b: seq<string>, config: FilterConfig)
    requires |a| == |b| && forall i :: 0 <= i < |a| ==> SameButForCase(a[i], b[i])
    ensures Pipeline(a, config) == Pipeline(b, config)
  {
    CleanedIgnoresCase(Truncated(a), Truncated(b));
  }

  // ---------------------------------------------------------------------
  // Running it again changes nothing
  // ---------------------------------------------------------------------

  lemma {:induction false} CanonicalIsKept(names: seq<string>)
    requires NoDuplicates(names) && forall n :: n in names ==> Canonical(n)
    ensures Sanitized(names) == names && Deduplicated(names) == names
  {
    if names != [] {
      var front, last := names[..|names| - 1], names[|names| - 1];
      assert names == front + [last];
      CanonicalIsKept(front);
      CanonicalIsFixed(last);
    }
  }

  lemma {:induction false} PermittedIsKept(names: seq<string>, config: FilterConfig)
    requires forall n :: n in names ==> Permitted(n, config)
    ensures Filtered(names, config) == names
  {
    if names != [] {
      var front, last := names[..|names| - 1], names[|names| - 1];
      assert names == front + [last];
      PermittedIsKept(front, config);
    }
  }

  lemma AllPermitted(names: seq<string>, config: FilterConfig)
    requires config.allowedPrefix == "" && config.allowedPattern.None?
    ensures Filtered(names, config) == names
  {
  }

  lemma PipelineIsIdempotent(groups: seq<string>, config: FilterConfig)
    ensures Pipeline(Pipeline(groups, config), config) == Pipeline(groups, config)
  {
    hide Canonical, StandsFor;
    var out := Pipeline(groups, config);
    PipelineIsCanonical(groups, config);
    CanonicalIsKept(out);
    PermittedIsKept(out, config);
  }
}
