/** Module selectors: `*` stands for one segment, `**` for any number of them
    (src/architecture.rs). */
module Patterns {
  import opened Order
  import Permutations

  // ----- Splitting at "::" -----

  /** `str::split("::")`: the leftmost separator first, never overlapping. */
  function Split(text: string): (parts: seq<string>)
    ensures parts != []
    decreases |text|
  {
    if |text| >= 2 && text[..2] == "::" then [""] + Split(text[2..])
    else if text == "" then [""]
    else
      var rest := Split(text[1..]);
      [[text[0]] + rest[0]] + rest[1..]
  }

  function Join(parts: seq<string>): string
  {
    if parts == [] then "" else if |parts| == 1 then parts[0] else parts[0] + "::" + Join(parts[1..])
  }

  /** Splitting loses nothing. */
  lemma {:induction false} JoinSplit(text: string)
    ensures Join(Split(text)) == text
    decreases |text|
  {
    if |text| >= 2 && text[..2] == "::" {
      JoinSplit(text[2..]);
      JoinEmptyFirst(Split(text[2..]));
      assert text == "::" + text[2..];
    } else if text != "" {
      JoinSplit(text[1..]);
      SplitLetter(text);
      JoinPrepended(text[0], Split(text[1..]));
      HeadAndTail(text);
    }
  }

  lemma SplitLetter(text: string)
    requires text != "" && !(|text| >= 2 && text[..2] == "::")
    ensures Split(text) == [[text[0]] + Split(text[1..])[0]] + Split(text[1..])[1..]
  {
  }

  lemma JoinEmptyFirst(parts: seq<string>)
    requires parts != []
    ensures Join([""] + parts) == "::" + Join(parts)
  {
    assert ([""] + parts)[1..] == parts;
  }

  lemma HeadAndTail(text: string)
    requires text != ""
    ensures [text[0]] + text[1..] == text
  {
  }

  lemma JoinPrepended(c: char, parts: seq<string>)
    requires parts != []
    ensures Join([[c] + parts[0]] + parts[1..]) == [c] + Join(parts)
  {
    var whole := [[c] + parts[0]] + parts[1..];
    assert whole[0] == [c] + parts[0] && whole[1..] == parts[1..];
    if |parts| > 1 {
      Permutations.Regroup([c], parts[0], "::");
      Permutations.Regroup([c], parts[0] + "::", Join(parts[1..]));
    }
  }

  /** Joining is undone by splitting when no segment holds a colon. */
  lemma {:induction false} SplitJoin(parts: seq<string>)
    requires parts != [] && forall p :: p in parts ==> ':' !in p
    ensures Split(Join(parts)) == parts
    decreases |parts|, if parts == [] then 0 else |parts[0]|
  {
    var text := Join(parts);
    if parts[0] != "" {
      var shorter := [parts[0][1..]] + parts[1..];
      assert text[1..] == Join(shorter);
      assert text[0] == parts[0][0] && text[0] in parts[0];
      forall p | p in shorter ensures ':' !in p {
        if p != parts[0][1..] { assert p in parts[1..] && p in parts; }
        assert ':' !in parts[0];
      }
      SplitJoin(shorter);
      assert parts[0] == [parts[0][0]] + parts[0][1..];
      assert parts == [parts[0]] + parts[1..];
    } else if |parts| > 1 {
      assert text == "::" + Join(parts[1..]);
      assert text[2..] == Join(parts[1..]);
      SplitJoin(parts[1..]);
      assert parts == [""] + parts[1..];
    } else {
      assert text == "";
      assert parts == [""];
    }
  }

  // ----- Matching -----

  predicate MatchSegments(pattern: seq<string>, value: seq<string>)
    decreases |pattern| + |value|
  {
    if pattern == [] then value == []
    else if pattern[0] == "**" then
      || MatchSegments(pattern[1..], value)
      || (value != [] && MatchSegments(pattern, value[1..]))
    else
      && value != []
      && (pattern[0] == "*" || pattern[0] == value[0])
      && MatchSegments(pattern[1..], value[1..])
  }

  predicate ModuleMatches(pattern: string, moduleId: string) {
    MatchSegments(Split(pattern), Split(moduleId))
  }

  // ----- What a pattern means, without a matcher -----

  /** The runs of segments one pattern segment stands for. */
  predicate Denotes(segment: string, run: seq<string>) {
    segment == "**" || (|run| == 1 && (segment == "*" || segment == run[0]))
  }

  function Concat(runs: seq<seq<string>>): seq<string> {
    if runs == [] then [] else runs[0] + Concat(runs[1..])
  }

  /** The value falls into consecutive runs, one for each pattern segment. */
  ghost predicate Explains(pattern: seq<string>, value: seq<string>, runs: seq<seq<string>>) {
    && |runs| == |pattern| && Concat(runs) == value
    && forall i :: 0 <= i < |runs| ==> Denotes(pattern[i], runs[i])
  }

  ghost predicate Means(pattern: seq<string>, value: seq<string>) {
    exists runs :: Explains(pattern, value, runs)
  }

  /** The matcher decides exactly the declared meaning of `*` and `**`. */
  lemma MatchMeaning(pattern: seq<string>, value: seq<string>)
    ensures MatchSegments(pattern, value) <==> Means(pattern, value)
  {
    if MatchSegments(pattern, value) {
      var runs := MatchExplained(pattern, value);
    }
    if runs :| Explains(pattern, value, runs) {
      ExplainedMatches(pattern, value, runs);
    }
  }

  lemma {:induction false} MatchExplained(pattern: seq<string>, value: seq<string>)
    returns (runs: seq<seq<string>>)
    requires MatchSegments(pattern, value)
    ensures Explains(pattern, value, runs)
    decreases |pattern| + |value|
  {
    if pattern == [] {
      runs := [];
    } else if pattern[0] == "**" && !MatchSegments(pattern[1..], value) {
      var rest := MatchExplained(pattern, value[1..]);
      runs := [[value[0]] + rest[0]] + rest[1..];
      assert Concat(runs) == [value[0]] + (rest[0] + Concat(rest[1..]));
    } else {
      var head := if pattern[0] == "**" then [] else [value[0]];
      var rest := MatchExplained(pattern[1..], value[|head|..]);
      runs := [head] + rest;
      assert value == head + value[|head|..];
    }
  }

  lemma {:induction false} ExplainedMatches(pattern: seq<string>, value: seq<string>, runs: seq<seq<string>>)
    requires Explains(pattern, value, runs)
    ensures MatchSegments(pattern, value)
    decreases |pattern| + |value|
  {
    if pattern != [] {
      var head, rest := runs[0], runs[1..];
      assert value == head + Concat(rest);
      assert Denotes(pattern[0], head);
      if head == [] {
        assert Explains(pattern[1..], value, rest);
        ExplainedMatches(pattern[1..], value, rest);
      } else if pattern[0] == "**" {
        var shorter := [head[1..]] + rest;
        assert value[1..] == head[1..] + Concat(rest);
        assert shorter[1..] == rest;
        assert Explains(pattern, value[1..], shorter);
        ExplainedMatches(pattern, value[1..], shorter);
      } else {
        assert value[1..] == Concat(rest);
        assert Explains(pattern[1..], value[1..], rest);
        ExplainedMatches(pattern[1..], value[1..], rest);
      }
    }
  }

  /** A concatenated pattern matches exactly the concatenations of what its parts match. */
  lemma MatchConcat(p: seq<string>, q: seq<string>, value: seq<string>)
    ensures MatchSegments(p + q, value) <==>
            exists i :: 0 <= i <= |value| && MatchSegments(p, value[..i]) && MatchSegments(q, value[i..])
  {
    if MatchSegments(p + q, value) {
      var i := CutMatch(p, q, value);
    }
    if i :| 0 <= i <= |value| && MatchSegments(p, value[..i]) && MatchSegments(q, value[i..]) {
      JoinMatches(p, q, value[..i], value[i..]);
      assert value == value[..i] + value[i..];
    }
  }

  lemma CutMatch(p: seq<string>, q: seq<string>, value: seq<string>) returns (i: nat)
    requires MatchSegments(p + q, value)
    ensures i <= |value| && MatchSegments(p, value[..i]) && MatchSegments(q, value[i..])
  {
    var runs := MatchExplained(p + q, value);
    var left, right := runs[..|p|], runs[|p|..];
    assert runs == left + right;
    ConcatSplits(left, right);
    i := |Concat(left)|;
    assert value[..i] == Concat(left) && value[i..] == Concat(right);
    forall k | 0 <= k < |left| ensures Denotes(p[k], left[k]) {
      assert Denotes((p + q)[k], runs[k]);
    }
    forall k | 0 <= k < |right| ensures Denotes(q[k], right[k]) {
      assert Denotes((p + q)[|p| + k], runs[|p| + k]);
    }
    ExplainedMatches(p, value[..i], left);
    ExplainedMatches(q, value[i..], right);
  }

  lemma JoinMatches(p: seq<string>, q: seq<string>, v: seq<string>, w: seq<string>)
    requires MatchSegments(p, v) && MatchSegments(q, w)
    ensures MatchSegments(p + q, v + w)
  {
    var left := MatchExplained(p, v);
    var right := MatchExplained(q, w);
    ConcatSplits(left, right);
    assert Explains(p + q, v + w, left + right);
    ExplainedMatches(p + q, v + w, left + right);
  }

  lemma {:induction false} ConcatSplits(a: seq<seq<string>>, b: seq<seq<string>>)
    ensures Concat(a + b) == Concat(a) + Concat(b)
  {
    if a == [] {
      assert a + b == b;
    } else {
      assert (a + b)[1..] == a[1..] + b;
      ConcatSplits(a[1..], b);
    }
  }

  /** Repeating `**` adds nothing. */
  lemma AdjacentStarsCollapse(p: seq<string>, q: seq<string>, value: seq<string>)
    ensures MatchSegments(p + ["**", "**"] + q, value) <==> MatchSegments(p + ["**"] + q, value)
  {
    assert p + ["**", "**"] + q == p + (["**"] + (["**"] + q));
    assert p + ["**"] + q == p + (["**"] + q);
    MatchConcat(p, ["**"] + (["**"] + q), value);
    MatchConcat(p, ["**"] + q, value);
    forall i | 0 <= i <= |value|
      ensures MatchSegments(["**"] + (["**"] + q), value[i..]) <==> MatchSegments(["**"] + q, value[i..])
    {
      StarsAbsorb(q, value[i..]);
    }
  }

  lemma {:induction false} StarsAbsorb(q: seq<string>, value: seq<string>)
    ensures MatchSegments(["**"] + (["**"] + q), value) <==> MatchSegments(["**"] + q, value)
    decreases |value|
  {
    var two, one := ["**"] + (["**"] + q), ["**"] + q;
    assert two[1..] == one && one[1..] == q;
    if value != [] {
      StarsAbsorb(q, value[1..]);
    }
  }

  // ----- Rules -----

  datatype Level = Off | Advisory | Warning | Error

  datatype Rule = Rule(id: string, from: seq<string>, allow: seq<string>, deny: seq<string>, level: Level)

  datatype Violation = Violation(ruleId: string, level: Level, source: string, target: string, message: string)

  predicate MatchesAny(patterns: seq<string>, moduleId: string) {
    exists p :: p in patterns && ModuleMatches(p, moduleId)
  }

  function ViolationReason(rule: Rule, target: string): Option<string> {
    if MatchesAny(rule.deny, target) then Some("matches a denied dependency pattern")
    else if rule.allow != [] && !MatchesAny(rule.allow, target) then
      Some("is outside the allowed dependency patterns")
    else None
  }

  function DependencyViolation(rule: Rule, sourceId: string, targetId: string,
                               sourceSelector: string, targetSelector: string): Option<Violation>
  {
    if !MatchesAny(rule.from, sourceSelector) then None
    else match ViolationReason(rule, targetSelector)
      case None => None
      case Some(reason) =>
        Some(Violation(rule.id, rule.level, sourceId, targetId,
                       sourceSelector + " depends on " + targetSelector + ", which " + reason))
  }

  ghost predicate Selects(patterns: seq<string>, moduleId: string) {
    exists p :: p in patterns && Means(Split(p), Split(moduleId))
  }

  /** A dependency is reported exactly when a `from` pattern explains the source and the target is
      explained by a `deny` pattern, or by no pattern of a non-empty `allow` list. */
  lemma ViolationMeaning(rule: Rule, sourceId: string, targetId: string, source: string, target: string)
    ensures DependencyViolation(rule, sourceId, targetId, source, target).Some? <==>
            && Selects(rule.from, source)
            && (Selects(rule.deny, target) || (rule.allow != [] && !Selects(rule.allow, target)))
  {
    MatchesAnyMeaning(rule.from, source);
    MatchesAnyMeaning(rule.deny, target);
    MatchesAnyMeaning(rule.allow, target);
  }

  lemma MatchesAnyMeaning(patterns: seq<string>, moduleId: string)
    ensures MatchesAny(patterns, moduleId) <==> Selects(patterns, moduleId)
  {
    forall p | p in patterns
      ensures ModuleMatches(p, moduleId) <==> Means(Split(p), Split(moduleId))
    {
      MatchMeaning(Split(p), Split(moduleId));
    }
  }

  // ----- Evaluating every rule over a dependency map -----

  type Dependencies = map<string, set<string>>

  ghost predicate Reported(rules: seq<Rule>, deps: Dependencies, v: Violation) {
    exists r, s, t :: r in rules && s in deps && t in deps[s] && DependencyViolation(r, s, t, s, t) == Some(v)
  }

  function Key(v: Violation): seq<string> {
    [v.ruleId, v.source, v.target]
  }

  ghost predicate StrictlyByKey(vs: seq<Violation>) {
    forall i, j :: 0 <= i < j < |vs| ==> ListLess(Key(vs[i]), Key(vs[j]))
  }

  ghost predicate DistinctKeys(vs: seq<Violation>) {
    forall i, j :: 0 <= i < j < |vs| ==> Key(vs[i]) != Key(vs[j])
  }

  /** `sort_by` on the key: a stable insertion sort. */
  function SortByKey(vs: seq<Violation>): (r: seq<Violation>)
    ensures multiset(r) == multiset(vs)
  {
    if vs == [] then []
    else
      assert vs == [vs[0]] + vs[1..];
      InsertByKey(vs[0], SortByKey(vs[1..]))
  }

  function InsertByKey(v: Violation, vs: seq<Violation>): (r: seq<Violation>)
    ensures multiset(r) == multiset(vs) + multiset{v}
  {
    if vs == [] || !ListLess(Key(vs[0]), Key(v)) then [v] + vs
    else
      assert vs == [vs[0]] + vs[1..];
      [vs[0]] + InsertByKey(v, vs[1..])
  }

  lemma {:induction false} SortedByKey(vs: seq<Violation>)
    requires DistinctKeys(vs)
    ensures StrictlyByKey(SortByKey(vs))
  {
    if vs != [] {
      SortedByKey(vs[1..]);
      Permutations.SameMembers(SortByKey(vs[1..]), vs[1..]);
      InsertedByKey(vs[0], SortByKey(vs[1..]));
    }
  }

  lemma {:induction false} InsertedByKey(v: Violation, vs: seq<Violation>)
    requires StrictlyByKey(vs) && forall w :: w in vs ==> Key(w) != Key(v)
    ensures StrictlyByKey(InsertByKey(v, vs))
  {
    if vs != [] {
      ListTrichotomy(Key(vs[0]), Key(v));
      if ListLess(Key(vs[0]), Key(v)) {
        var rest := InsertByKey(v, vs[1..]);
        InsertedByKey(v, vs[1..]);
        forall j | 0 <= j < |rest| ensures ListLess(Key(vs[0]), Key(rest[j])) {
          assert rest[j] in multiset(rest);
          assert rest[j] == v || rest[j] in vs[1..];
        }
      } else {
        forall j | 0 < j < |vs| ensures ListLess(Key(v), Key(vs[j])) {
          ListTransitive(Key(v), Key(vs[0]), Key(vs[j]));
        }
      }
    }
  }

  /** Every rule over every dependency, whatever order the hash maps iterate in. Rule ids are
      distinct in every accepted configuration. */
  method Evaluate(rules: seq<Rule>, deps: Dependencies) returns (violations: seq<Violation>)
    requires forall i, j :: 0 <= i < j < |rules| ==> rules[i].id != rules[j].id
    ensures forall v :: v in violations <==> Reported(rules, deps, v)
    ensures StrictlyByKey(violations)
  {
    var found: seq<Violation> := [];
    for i := 0 to |rules|
      invariant DistinctKeys(found)
      invariant forall v :: v in found <==> Reported(rules[..i], deps, v)
    {
      var more := EvaluateRule(rules[i], deps);
      forall v ensures v in found + more <==> Reported(rules[..i + 1], deps, v) {
        assert rules[..i + 1] == rules[..i] + [rules[i]];
        if v in more {
          assert Reported([rules[i]], deps, v);
        }
      }
      forall a, b | 0 <= a < |found| && 0 <= b < |more| ensures Key(found[a]) != Key(more[b]) {
        assert found[a] in found && more[b] in more;
        assert Reported(rules[..i], deps, found[a]) && Reported([rules[i]], deps, more[b]);
        assert Key(found[a])[0] == found[a].ruleId && Key(more[b])[0] == more[b].ruleId;
      }
      found := found + more;
    }
    assert rules[..|rules|] == rules;
    violations := SortByKey(found);
    SortedByKey(found);
    Permutations.SameMembers(violations, found);
  }

  method EvaluateRule(rule: Rule, deps: Dependencies) returns (found: seq<Violation>)
    ensures forall v :: v in found <==> Reported([rule], deps, v)
    ensures DistinctKeys(found)
  {
    found := [];
    var sources := deps.Keys;
    ghost var done: set<(string, string)> := {};
    while sources != {}
      invariant sources <= deps.Keys
      invariant forall s, t :: (s, t) in done <==> s in deps && s !in sources && t in deps[s]
      invariant DistinctKeys(found)
      invariant forall v :: v in found <==> ReportedFor(rule, done, v)
      decreases sources
    {
      var s :| s in sources;
      var targets := deps[s];
      while targets != {}
        invariant targets <= deps[s]
        invariant forall x, t :: (x, t) in done <==>
                    x in deps && t in deps[x] && (x !in sources || (x == s && t !in targets))
        invariant DistinctKeys(found)
        invariant forall v :: v in found <==> ReportedFor(rule, done, v)
        decreases targets
      {
        var t :| t in targets;
        var v := DependencyViolation(rule, s, t, s, t);
        if v.Some? {
          forall k | 0 <= k < |found| ensures Key(found[k]) != Key(v.value) {
            assert found[k] in found;
            assert Key(found[k])[1] == found[k].source && Key(found[k])[2] == found[k].target;
            assert Key(v.value)[1] == s && Key(v.value)[2] == t;
          }
          found := found + [v.value];
        }
        done := done + {(s, t)};
        targets := targets - {t};
      }
      sources := sources - {s};
    }
    forall v ensures ReportedFor(rule, done, v) <==> Reported([rule], deps, v) {
      if Reported([rule], deps, v) {
        var r, s, t :| r in [rule] && s in deps && t in deps[s] && DependencyViolation(r, s, t, s, t) == Some(v);
        assert (s, t) in done;
      }
      if ReportedFor(rule, done, v) {
        assert rule in [rule];
      }
    }
  }

  ghost predicate ReportedFor(rule: Rule, done: set<(string, string)>, v: Violation) {
    (v.source, v.target) in done
    && DependencyViolation(rule, v.source, v.target, v.source, v.target) == Some(v)
  }

  /** The evaluation is determined by the rules and the edges: any two runs agree. */
  lemma {:induction false} EvaluationDetermined(vs: seq<Violation>, ws: seq<Violation>)
    requires StrictlyByKey(vs) && StrictlyByKey(ws) && forall v :: v in vs <==> v in ws
    ensures vs == ws
  {
    if vs != [] {
      assert vs[0] in ws;
    }
    if ws != [] {
      assert ws[0] in vs;
    }
    if vs != [] && ws != [] {
      LeastFirst(vs, ws[0]);
      LeastFirst(ws, vs[0]);
      ListTrichotomy(Key(vs[0]), Key(ws[0]));
      assert vs == [vs[0]] + vs[1..] && ws == [ws[0]] + ws[1..];
      forall v ensures v in vs[1..] <==> v in ws[1..] {
        HeadNotRepeated(vs);
        HeadNotRepeated(ws);
        assert v in vs <==> v == vs[0] || v in vs[1..];
        assert v in ws <==> v == ws[0] || v in ws[1..];
      }
      EvaluationDetermined(vs[1..], ws[1..]);
    }
  }

  lemma LeastFirst(vs: seq<Violation>, v: Violation)
    requires StrictlyByKey(vs) && v in vs
    ensures v == vs[0] || ListLess(Key(vs[0]), Key(v))
  {
    var i :| 0 <= i < |vs| && vs[i] == v;
  }

  lemma HeadNotRepeated(vs: seq<Violation>)
    requires StrictlyByKey(vs) && vs != []
    ensures vs[0] !in vs[1..]
  {
    forall i | 1 <= i < |vs| ensures vs[i] != vs[0] {
      ListTrichotomy(Key(vs[0]), Key(vs[i]));
    }
  }
}
