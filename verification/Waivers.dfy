/** Path exclusions, waivers and the sorting of findings by what the policy does with them
    (src/policy.rs, src/findings.rs, src/config.rs). */
module Waivers {
  import opened Order
  import opened GateInputs
  import Patterns

  // ----- Path patterns -----

  function Slashes(path: string): string {
    seq(|path|, i requires 0 <= i < |path| => if path[i] == '\\' then '/' else path[i])
  }

  function TrimSlashes(path: string): string {
    if path != "" && path[|path| - 1] == '/' then TrimSlashes(path[..|path| - 1]) else path
  }

  const ANYTHING_BELOW: string := "/**"

  predicate IsSubtree(pattern: string) {
    |pattern| >= |ANYTHING_BELOW| && pattern[|pattern| - |ANYTHING_BELOW|..] == ANYTHING_BELOW
  }

  function SubtreeRoot(pattern: string): string
    requires IsSubtree(pattern)
  {
    TrimSlashes(pattern[..|pattern| - |ANYTHING_BELOW|])
  }

  predicate IsAtOrBelow(root: string, path: string) {
    path == root || (root <= path && path[|root|] == '/')
  }

  /** A pattern that names no subtree must equal the path; a finding without a path has the empty one. */
  predicate PathMatches(pattern: string, path: Option<string>) {
    var pattern := Slashes(pattern);
    var path := Slashes(if path.Some? then path.value else "");
    if IsSubtree(pattern) then IsAtOrBelow(SubtreeRoot(pattern), path) else path == pattern
  }

  function Segments(path: string): (r: seq<string>)
    ensures r != []
  {
    if path == "" then [""]
    else
      var rest := Segments(path[1..]);
      if path[0] == '/' then [""] + rest else [[path[0]] + rest[0]] + rest[1..]
  }

  /** Matching never splits a path segment: a path is at or below a root exactly when the root's
      segments begin the path's segments. */
  lemma {:induction false} BelowIffSegmentPrefix(root: string, path: string)
    ensures IsAtOrBelow(root, path) <==> Segments(root) <= Segments(path)
  {
    if path != "" { SplitHead(path); }
    if root != "" {
      SplitHead(root);
      if path != "" && root[0] == path[0] {
        BelowIffSegmentPrefix(root[1..], path[1..]);
        TailBelow(root, path);
        TailSegments(Segments(root), Segments(root[1..]), Segments(path), Segments(path[1..]), root[0]);
      } else {
        HeadsDiffer(root, path);
      }
    } else {
      assert Segments(root) <= Segments(path) <==> Segments(path)[0] == "";
    }
  }

  lemma HeadsDiffer(root: string, path: string)
    requires root != "" && (path == "" || root[0] != path[0])
    ensures !IsAtOrBelow(root, path) && !(Segments(root) <= Segments(path))
  {
    SplitHead(root);
    var r, p := Segments(root), Segments(path);
    if path == "" {
      assert |p| == 1 && |p[0]| == 0;
      assert |r| > 1 || r[0] != p[0];
    } else {
      SplitHead(path);
      assert r[0] != p[0] by {
        if root[0] != '/' && path[0] != '/' { assert r[0][0] != p[0][0]; }
      }
    }
  }

  lemma TailBelow(root: string, path: string)
    requires root != "" && path != "" && root[0] == path[0]
    ensures IsAtOrBelow(root, path) <==> IsAtOrBelow(root[1..], path[1..])
  {
    assert root == [root[0]] + root[1..] && path == [path[0]] + path[1..];
    assert root <= path <==> root[1..] <= path[1..];
  }

  ghost predicate Prepends(s: seq<string>, rest: seq<string>, c: char) {
    s != [] && rest != []
    && if c == '/' then s[0] == "" && s[1..] == rest else s[0] == [c] + rest[0] && s[1..] == rest[1..]
  }

  lemma TailSegments(r: seq<string>, r': seq<string>, p: seq<string>, p': seq<string>, c: char)
    requires Prepends(r, r', c) && Prepends(p, p', c)
    ensures r <= p <==> r' <= p'
  {
    assert r == [r[0]] + r[1..] && p == [p[0]] + p[1..];
    assert r <= p <==> r[0] == p[0] && r[1..] <= p[1..];
    if c != '/' {
      assert r'[0] == r[0][1..] && p'[0] == p[0][1..];
      assert r' == [r'[0]] + r'[1..] && p' == [p'[0]] + p'[1..];
      assert r' <= p' <==> r'[0] == p'[0] && r'[1..] <= p'[1..];
    }
  }

  lemma SplitHead(path: string)
    requires path != ""
    ensures Prepends(Segments(path), Segments(path[1..]), path[0])
  {
  }

  function Slash(n: nat): string {
    seq(n, _ => '/')
  }

  lemma {:induction false} TrimmedRoot(root: string, n: nat)
    requires root == "" || root[|root| - 1] != '/'
    ensures TrimSlashes(root + Slash(n)) == root
  {
    var text := root + Slash(n);
    if n == 0 {
      assert text == root;
    } else {
      assert text[..|text| - 1] == root + Slash(n - 1);
      TrimmedRoot(root, n - 1);
    }
  }

  /** Written with forward slashes, a pattern that ends in one or more slashes and `**` covers what the segments
      before begin; any other covers itself alone. */
  lemma PatternMeaning(root: string, n: nat, pattern: string, path: string)
    requires '\\' !in root && '\\' !in pattern && '\\' !in path
    requires (root == "" || root[|root| - 1] != '/') && n >= 1
    ensures PathMatches(root + Slash(n) + "**", Some(path)) <==> Segments(root) <= Segments(path)
    ensures !(exists front :: pattern == front + "/**") ==> (PathMatches(pattern, Some(path)) <==> path == pattern)
  {
    var subtree := root + Slash(n) + "**";
    NoBackslash(path);
    NoBackslash(pattern);
    NoBackslash(subtree);
    assert subtree == (root + Slash(n - 1)) + ANYTHING_BELOW;
    assert subtree[..|subtree| - 3] == root + Slash(n - 1);
    TrimmedRoot(root, n - 1);
    BelowIffSegmentPrefix(root, path);
    if IsSubtree(pattern) {
      assert pattern == pattern[..|pattern| - 3] + "/**";
    }
  }

  lemma NoBackslash(path: string)
    requires '\\' !in path
    ensures Slashes(path) == path
  {
  }

  /** Backslashes separate as slashes do, in patterns and in paths, and a finding without a path has the empty one. */
  lemma SeparatorsAlike(pattern: string, pattern': string, path: string, path': string)
    requires AlikeButSeparators(pattern, pattern') && AlikeButSeparators(path, path')
    ensures PathMatches(pattern, Some(path)) <==> PathMatches(pattern', Some(path'))
    ensures PathMatches(pattern, None) <==> PathMatches(pattern, Some(""))
  {
    assert Slashes(pattern) == Slashes(pattern') && Slashes(path) == Slashes(path');
  }

  predicate AlikeButSeparators(a: string, b: string) {
    |a| == |b| && forall i :: 0 <= i < |a| ==> a[i] == b[i] || (a[i] in {'/', '\\'} && b[i] in {'/', '\\'})
  }

  // ----- Rules, levels and waivers -----

  datatype PolicyRule = PolicyRule(
    level: Patterns.Level, max: nat, excludePaths: seq<string>, excludePackages: seq<string>)

  /** `expires` is the day number of a readable expiry date. */
  datatype Waiver = Waiver(ruleId: string, path: Option<string>, expires: Option<int>)

  datatype Policy = Policy(rules: map<string, PolicyRule>, waivers: seq<Waiver>, today: int)

  predicate Includes(rule: PolicyRule, f: Finding) {
    && (forall pattern :: pattern in rule.excludePaths ==> !PathMatches(pattern, f.path))
    && (f.packageName.Some? ==> f.packageName.value !in rule.excludePackages)
  }

  datatype Severity = ErrorLevel | WarningLevel | NoteLevel

  /** A known disposition decides; only without one does the severity count. */
  function FindingLevel(f: Finding): Severity {
    if f.disposition == Some("block") then ErrorLevel
    else if f.disposition == Some("warn") then WarningLevel
    else if f.disposition == Some("review") || f.disposition == Some("info") then NoteLevel
    else if f.severity == Some("error") then ErrorLevel
    else if f.severity == Some("warning") then WarningLevel
    else NoteLevel
  }

  predicate IsWaivable(f: Finding) {
    && f.status != Some("unavailable") && f.status != Some("timed-out")
    && f.status != Some("failed_execution") && f.status != Some("incomplete")
  }

  predicate Expired(w: Waiver, today: int) {
    w.expires.None? || w.expires.value < today
  }

  predicate Covers(w: Waiver, ruleId: string, path: Option<string>) {
    w.ruleId == ruleId && (w.path.None? || PathMatches(w.path.value, path))
  }

  function FirstWaiver(waivers: seq<Waiver>, today: int, ruleId: string, path: Option<string>): Option<Waiver> {
    if waivers == [] then None
    else if Covers(waivers[0], ruleId, path) && !Expired(waivers[0], today) then Some(waivers[0])
    else FirstWaiver(waivers[1..], today, ruleId, path)
  }

  function ActiveWaiver(policy: Policy, f: Finding): Option<Waiver> {
    if f.ruleId.None? then None
    else
      var waiver := FirstWaiver(policy.waivers, policy.today, f.ruleId.value, f.path);
      if IsWaivable(f) then waiver else None
  }

  ghost predicate Excuses(w: Waiver, today: int, f: Finding) {
    IsWaivable(f) && f.ruleId.Some? && Covers(w, f.ruleId.value, f.path) && !Expired(w, today)
  }

  lemma {:induction false} FirstWaiverIff(waivers: seq<Waiver>, today: int, ruleId: string, path: Option<string>)
    ensures var r := FirstWaiver(waivers, today, ruleId, path);
            && (r.Some? ==> r.value in waivers && Covers(r.value, ruleId, path) && !Expired(r.value, today))
            && (forall w :: w in waivers && Covers(w, ruleId, path) && !Expired(w, today) ==> r.Some?)
  {
    if waivers != [] {
      FirstWaiverIff(waivers[1..], today, ruleId, path);
      assert forall w :: w in waivers ==> w == waivers[0] || w in waivers[1..];
    }
  }

  /** A finding is waived exactly when it is waivable and some unexpired waiver covers it, wherever the
      waiver stands in the list. */
  lemma WaivedIff(policy: Policy, f: Finding)
    ensures ActiveWaiver(policy, f).Some? <==> exists w :: w in policy.waivers && Excuses(w, policy.today, f)
    ensures ActiveWaiver(policy, f).Some? ==>
              ActiveWaiver(policy, f).value in policy.waivers && Excuses(ActiveWaiver(policy, f).value, policy.today, f)
  {
    if f.ruleId.Some? {
      FirstWaiverIff(policy.waivers, policy.today, f.ruleId.value, f.path);
    }
  }

  // ----- Classification -----

  /** Where a list of findings comes from. */
  datatype Source = FromPractices | FromReliability | FromArchitecture | FromTestQuality | FromExternal

  /** Only production reliability findings above advisory level are the policy's business. */
  predicate Selected(source: Source, f: Finding) {
    source.FromReliability? ==> f.severity != Some("advisory") && f.scope == Some("production")
  }

  datatype Part = Waived | OutOfScope | Errors | Warnings

  function PartOf(policy: Policy, source: Source, f: Finding): Part {
    if ActiveWaiver(policy, f).Some? then Waived
    else if !Selected(source, f) then OutOfScope
    else if FindingLevel(f).ErrorLevel? then Errors
    else Warnings
  }

  function InPart(policy: Policy, source: Source, part: Part): Finding -> bool {
    f => PartOf(policy, source, f) == part
  }

  function IsActive(policy: Policy, source: Source): Finding -> bool {
    f => PartOf(policy, source, f) in {Errors, Warnings}
  }

  function Keep(p: Finding -> bool, xs: seq<Finding>): (r: seq<Finding>)
    ensures forall x :: x in r <==> x in xs && p(x)
  {
    if xs == [] then [] else
      var rest := Keep(p, xs[..|xs| - 1]);
      assert xs == xs[..|xs| - 1] + [xs[|xs| - 1]];
      if p(xs[|xs| - 1]) then rest + [xs[|xs| - 1]] else rest
  }

  lemma {:induction false} KeepConcat(p: Finding -> bool, xs: seq<Finding>, ys: seq<Finding>)
    ensures Keep(p, xs + ys) == Keep(p, xs) + Keep(p, ys)
  {
    if ys == [] {
      assert xs + ys == xs;
    } else {
      var front := ys[..|ys| - 1];
      KeepConcat(p, xs, front);
      assert (xs + ys)[..|xs + ys| - 1] == xs + front;
    }
  }

  lemma {:induction false} KeepKeep(p: Finding -> bool, q: Finding -> bool, both: Finding -> bool, xs: seq<Finding>)
    requires forall x :: x in xs ==> (both(x) <==> p(x) && q(x))
    ensures Keep(q, Keep(p, xs)) == Keep(both, xs)
  {
    if xs != [] {
      var front := xs[..|xs| - 1];
      assert xs == front + [xs[|xs| - 1]];
      KeepKeep(p, q, both, front);
    }
  }

  lemma {:induction false} KeepMonotone(p: Finding -> bool, q: Finding -> bool, xs: seq<Finding>)
    requires forall x :: x in xs && p(x) ==> q(x)
    ensures |Keep(p, xs)| <= |Keep(q, xs)|
  {
    if xs != [] {
      var front := xs[..|xs| - 1];
      assert xs == front + [xs[|xs| - 1]];
      KeepMonotone(p, q, front);
    }
  }

  datatype Classification = Classification(
    active: seq<Finding>, errors: seq<Finding>, warnings: seq<Finding>,
    waived: seq<(Finding, Waiver)>, outOfScope: seq<Finding>)

  function Findings(waived: seq<(Finding, Waiver)>): seq<Finding> {
    seq(|waived|, i requires 0 <= i < |waived| => waived[i].0)
  }

  function Unwaived(policy: Policy): Finding -> bool {
    f => ActiveWaiver(policy, f).None?
  }

  function IsWaived(policy: Policy): Finding -> bool {
    f => ActiveWaiver(policy, f).Some?
  }

  method ApplyWaivers(policy: Policy, findings: seq<Finding>)
    returns (active: seq<Finding>, waived: seq<(Finding, Waiver)>)
    ensures active == Keep(Unwaived(policy), findings)
    ensures Findings(waived) == Keep(IsWaived(policy), findings)
    ensures forall pair :: pair in waived ==> ActiveWaiver(policy, pair.0) == Some(pair.1)
  {
    active, waived := [], [];
    for i := 0 to |findings|
      invariant active == Keep(Unwaived(policy), findings[..i])
      invariant Findings(waived) == Keep(IsWaived(policy), findings[..i])
      invariant forall pair :: pair in waived ==> ActiveWaiver(policy, pair.0) == Some(pair.1)
    {
      assert findings[..i + 1][..i] == findings[..i];
      var waiver := ActiveWaiver(policy, findings[i]);
      if waiver.Some? {
        assert Findings(waived + [(findings[i], waiver.value)]) == Findings(waived) + [findings[i]];
        waived := waived + [(findings[i], waiver.value)];
      } else {
        active := active + [findings[i]];
      }
    }
    assert findings[..|findings|] == findings;
  }

  function IsSelected(source: Source, wanted: bool): Finding -> bool {
    f => Selected(source, f) == wanted
  }

  function AtErrorLevel(wanted: bool): Finding -> bool {
    f => FindingLevel(f).ErrorLevel? == wanted
  }

  method Classify(policy: Policy, source: Source, findings: seq<Finding>) returns (c: Classification)
    ensures c.active == Keep(IsActive(policy, source), findings)
    ensures c.errors == Keep(InPart(policy, source, Errors), findings)
    ensures c.warnings == Keep(InPart(policy, source, Warnings), findings)
    ensures c.outOfScope == Keep(InPart(policy, source, OutOfScope), findings)
    ensures Findings(c.waived) == Keep(InPart(policy, source, Waived), findings)
    ensures forall pair :: pair in c.waived ==> ActiveWaiver(policy, pair.0) == Some(pair.1)
    ensures multiset(findings) ==
            multiset(c.errors) + multiset(c.warnings) + multiset(Findings(c.waived)) + multiset(c.outOfScope)
  {
    var unwaived, waived := ApplyWaivers(policy, findings);
    var active := Keep(IsSelected(source, true), unwaived);
    c := Classification(active, Keep(AtErrorLevel(true), active), Keep(AtErrorLevel(false), active), waived,
                        Keep(IsSelected(source, false), unwaived));
    KeepKeep(Unwaived(policy), IsSelected(source, true), IsActive(policy, source), findings);
    KeepKeep(Unwaived(policy), IsSelected(source, false), InPart(policy, source, OutOfScope), findings);
    KeepKeep(IsActive(policy, source), AtErrorLevel(true), InPart(policy, source, Errors), findings);
    KeepKeep(IsActive(policy, source), AtErrorLevel(false), InPart(policy, source, Warnings), findings);
    WaivedPart(policy, source, findings);
    PartsPartition(policy, source, findings);
  }

  lemma {:induction false} WaivedPart(policy: Policy, source: Source, findings: seq<Finding>)
    ensures Keep(IsWaived(policy), findings) == Keep(InPart(policy, source, Waived), findings)
  {
    if findings != [] {
      WaivedPart(policy, source, findings[..|findings| - 1]);
    }
  }

  /** Each occurrence of a finding is an error, a warning, waived or out of scope, and only one of these. */
  lemma {:induction false} PartsPartition(policy: Policy, source: Source, findings: seq<Finding>)
    ensures multiset(findings) ==
            multiset(Keep(InPart(policy, source, Errors), findings))
            + multiset(Keep(InPart(policy, source, Warnings), findings))
            + multiset(Keep(InPart(policy, source, Waived), findings))
            + multiset(Keep(InPart(policy, source, OutOfScope), findings))
  {
    if findings != [] {
      var front, last := findings[..|findings| - 1], findings[|findings| - 1];
      assert findings == front + [last];
      PartsPartition(policy, source, front);
      LastPart(policy, source, findings, Errors);
      LastPart(policy, source, findings, Warnings);
      LastPart(policy, source, findings, Waived);
      LastPart(policy, source, findings, OutOfScope);
    }
  }

  lemma LastPart(policy: Policy, source: Source, findings: seq<Finding>, part: Part)
    requires findings != []
    ensures var p, last := InPart(policy, source, part), findings[|findings| - 1];
            multiset(Keep(p, findings)) == multiset(Keep(p, findings[..|findings| - 1]))
                                           + if PartOf(policy, source, last) == part then multiset{last} else multiset{}
  {
  }
}
