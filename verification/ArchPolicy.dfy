/** Architecture rules evaluated on the compiled graphs, and the consumer that recomputes them
    (src/compiler_inventory/architecture_policy.rs). */
module ArchPolicy {
  import opened Order
  import opened Origins
  import opened Profiles
  import opened Inventories
  import opened Patterns
  import Capture
  import G = ContextGraph
  import Permutations

  /** A violation row; `id` and `identityVersion` are what finding normalization adds later. */
  datatype Row = Row(id: Option<string>, identityVersion: Option<string>, ruleId: string, severity: Level,
                     contextId: string, source: string, target: string,
                     sourceSelector: string, targetSelector: string, moduleKey: string,
                     packageName: Option<string>, path: Option<string>, line: Option<nat>,
                     referenceCount: nat, origins: seq<Origin>, message: string)

  datatype PolicySummary = PolicySummary(ruleCount: nat, violationCount: nat, unresolvedCount: nat, contextCount: nat)

  datatype Policy = Policy(backend: string, modelVersion: nat, summary: PolicySummary, violations: seq<Row>,
                           confidence: Confidence, rules: seq<Rule>, report: Report)

  // ----- Violations -----

  ghost predicate Shaped(gs: seq<G.Graph>) {
    forall g :: g in gs ==> G.WellShaped(g)
  }

  ghost predicate EndsKnown(g: G.Graph, edges: seq<G.Edge>) {
    forall e :: e in edges ==> e.source in g.modules && e.target in g.modules
  }

  function EdgeRow(g: G.Graph, rule: Rule, e: G.Edge): seq<Row>
    requires e.source in g.modules && e.target in g.modules
  {
    var source, target := g.modules[e.source], g.modules[e.target];
    match DependencyViolation(rule, source.id, target.id, source.selector, target.selector)
    case None => []
    case Some(v) =>
      var location := if source.origin.Some? then source.origin.value.location else None;
      [Row(None, None, v.ruleId, v.level, g.contextId, source.id, target.id, source.selector, target.selector,
           source.modulePath, source.packageName,
           if location.Some? then Some(location.value.path) else None,
           if location.Some? then Some(location.value.line) else None,
           |e.observations|, seq(|e.observations|, i requires 0 <= i < |e.observations| => e.observations[i].origin),
           v.message)]
  }

  function EdgeRows(g: G.Graph, rule: Rule, edges: seq<G.Edge>): seq<Row>
    requires EndsKnown(g, edges)
  {
    if edges == [] then [] else EdgeRows(g, rule, edges[..|edges| - 1]) + EdgeRow(g, rule, edges[|edges| - 1])
  }

  function RuleRows(g: G.Graph, rules: seq<Rule>): seq<Row>
    requires EndsKnown(g, g.edges)
  {
    if rules == [] then []
    else
      var rule := rules[|rules| - 1];
      RuleRows(g, rules[..|rules| - 1]) + if rule.level.Off? then [] else EdgeRows(g, rule, g.edges)
  }

  function GraphRows(gs: seq<G.Graph>, rules: seq<Rule>): seq<Row>
    requires Shaped(gs)
  {
    if gs == [] then []
    else
      var g := gs[|gs| - 1];
      assert g in gs;
      GraphRows(gs[..|gs| - 1], rules) + RuleRows(g, rules)
  }

  /** `sort_by_key` on a row's JSON text: stable. */
  function SortRows(text: Row -> string, rows: seq<Row>): (r: seq<Row>)
    ensures multiset(r) == multiset(rows)
  {
    if rows == [] then []
    else
      assert rows == [rows[0]] + rows[1..];
      InsertRow(text, rows[0], SortRows(text, rows[1..]))
  }

  function InsertRow(text: Row -> string, row: Row, rows: seq<Row>): (r: seq<Row>)
    ensures multiset(r) == multiset(rows) + multiset{row}
  {
    if rows == [] || !Less(text(rows[0]), text(row)) then [row] + rows
    else
      assert rows == [rows[0]] + rows[1..];
      [rows[0]] + InsertRow(text, row, rows[1..])
  }

  /** The nested evaluation loops. */
  method CollectViolations(gs: seq<G.Graph>, rules: seq<Rule>) returns (rows: seq<Row>)
    requires Shaped(gs)
    ensures rows == GraphRows(gs, rules)
  {
    rows := [];
    for i := 0 to |gs|
      invariant rows == GraphRows(gs[..i], rules)
    {
      assert gs[..i + 1][..i] == gs[..i];
      var g := gs[i];
      assert g in gs && G.WellShaped(g);
      rows := ExtendByRules(rows, g, rules);
    }
    assert gs[..|gs|] == gs;
  }

  method ExtendByRules(before: seq<Row>, g: G.Graph, rules: seq<Rule>) returns (rows: seq<Row>)
    requires EndsKnown(g, g.edges)
    ensures rows == before + RuleRows(g, rules)
  {
    rows := before;
    for j := 0 to |rules|
      invariant rows == before + RuleRows(g, rules[..j])
    {
      RuleRowsStep(before, g, rules, j);
      if rules[j].level != Off {
        rows := ExtendByEdges(rows, g, rules[j]);
      }
    }
    assert rules[..|rules|] == rules;
  }

  lemma RuleRowsStep(before: seq<Row>, g: G.Graph, rules: seq<Rule>, j: nat)
    requires EndsKnown(g, g.edges) && j < |rules|
    ensures before + RuleRows(g, rules[..j + 1]) ==
            before + RuleRows(g, rules[..j]) + if rules[j].level.Off? then [] else EdgeRows(g, rules[j], g.edges)
  {
    assert rules[..j + 1][..j] == rules[..j];
    var front, more := RuleRows(g, rules[..j]), if rules[j].level.Off? then [] else EdgeRows(g, rules[j], g.edges);
    assert RuleRows(g, rules[..j + 1]) == front + more;
    Permutations.Regroup(before, front, more);
  }

  method ExtendByEdges(before: seq<Row>, g: G.Graph, rule: Rule) returns (rows: seq<Row>)
    requires EndsKnown(g, g.edges)
    ensures rows == before + EdgeRows(g, rule, g.edges)
  {
    rows := before;
    for k := 0 to |g.edges|
      invariant rows == before + EdgeRows(g, rule, g.edges[..k])
    {
      assert g.edges[..k + 1][..k] == g.edges[..k];
      rows := rows + EdgeRow(g, rule, g.edges[k]);
    }
    assert g.edges[..|g.edges|] == g.edges;
  }

  // ----- Confidence and payload -----

  function Prefixed(contextId: string, reasons: seq<string>): seq<string> {
    seq(|reasons|, i requires 0 <= i < |reasons| => contextId + ": " + reasons[i])
  }

  function GraphReasons(gs: seq<G.Graph>): seq<string> {
    if gs == [] then []
    else GraphReasons(gs[..|gs| - 1]) + Prefixed(gs[|gs| - 1].contextId, gs[|gs| - 1].missing)
  }

  function EdgeCount(gs: seq<G.Graph>): nat {
    if gs == [] then 0 else EdgeCount(gs[..|gs| - 1]) + |gs[|gs| - 1].edges|
  }

  function UnresolvedCount(gs: seq<G.Graph>): nat {
    if gs == [] then 0 else UnresolvedCount(gs[..|gs| - 1]) + |gs[|gs| - 1].unresolved|
  }

  function PolicyConfidence(inv: Inventory, gs: seq<G.Graph>, fingerprintComplete: bool): Confidence {
    var missing := SortDedup(
      inv.reasons
      + (if fingerprintComplete then [] else ["quality input fingerprint is incomplete"])
      + (if Covered(inv.profiles, inv.expected) then [] else ["architecture compilation coverage"])
      + GraphReasons(gs));
    var complete := missing == [] && gs != [];
    Confidence(complete, !complete, "compiled_static_module_dependencies", |gs|, Some(EdgeCount(gs)), missing)
  }

  lemma ProjectedShapes(ps: seq<Profile>, h: ContextHash)
    ensures Shaped(G.Project(ps, h))
  {
    forall i | 0 <= i < |ps| ensures G.WellShaped(G.Project(ps, h)[i]) {
      G.ProjectionShape(ps[i], ps, h);
    }
  }

  function MakePolicy(inv: Inventory, rules: seq<Rule>, fingerprintComplete: bool, h: ContextHash,
                      text: Row -> string): Policy
  {
    ProjectedShapes(inv.profiles, h);
    var gs := G.Project(inv.profiles, h);
    var rows := GraphRows(gs, rules);
    Policy("rustc-hir", 1, PolicySummary(|rules|, |rows|, UnresolvedCount(gs), |gs|), SortRows(text, rows),
           PolicyConfidence(inv, gs, fingerprintComplete), rules, MakeReport(inv, fingerprintComplete, h))
  }

  // ----- The consumer's check -----

  function Stripped(rows: seq<Row>): seq<Row> {
    seq(|rows|, i requires 0 <= i < |rows| => rows[i].(id := None, identityVersion := None))
  }

  function WireInventory(r: Report): Inventory {
    Inventory(r.profiles, CollectUnits(r.expected), r.captureFailures, r.requestedScope)
  }

  ghost predicate PolicyOk(v: Policy, fingerprintComplete: bool, h: ContextHash, text: Row -> string) {
    && v.backend == "rustc-hir" && v.modelVersion == 1
    && ReportOk(v.report, h)
    && var expected := MakePolicy(WireInventory(v.report), v.rules, fingerprintComplete, h, text);
       && v.summary == expected.summary && v.confidence == expected.confidence && v.report == expected.report
       && Stripped(v.violations) == expected.violations
  }

  method ValidatePolicy(v: Policy, fingerprintComplete: bool, h: ContextHash, text: Row -> string) returns (ok: bool)
    ensures ok <==> PolicyOk(v, fingerprintComplete, h, text)
  {
    if v.backend != "rustc-hir" || v.modelVersion != 1 {
      return false;
    }
    var valid := ValidateReport(v.report, h);
    if !valid {
      return false;
    }
    var expected := MakePolicy(WireInventory(v.report), v.rules, fingerprintComplete, h, text);
    if v.summary != expected.summary || v.confidence != expected.confidence || v.report != expected.report {
      return false;
    }
    var violations := StripIdentities(v.violations);
    return violations == expected.violations;
  }

  /** The in-place removal of `id` and `identity_version` from every row. */
  method StripIdentities(rows: seq<Row>) returns (stripped: seq<Row>)
    ensures stripped == Stripped(rows)
  {
    stripped := rows;
    for i := 0 to |rows|
      invariant |stripped| == |rows|
      invariant forall k :: 0 <= k < |rows| ==>
                  stripped[k] == if k < i then rows[k].(id := None, identityVersion := None) else rows[k]
    {
      stripped := stripped[i := stripped[i].(id := None, identityVersion := None)];
    }
  }

  ghost predicate Produces(inv: Inventory, rules: seq<Rule>, v: Policy, fingerprintComplete: bool, h: ContextHash,
                           text: Row -> string)
  {
    && IsUnitSet(inv.expected) && InventoryOk(inv, h)
    && v.(violations := Stripped(v.violations)) == MakePolicy(inv, rules, fingerprintComplete, h, text)
  }

  /** Exactly the producer's payloads pass: a payload is accepted if and only if some valid
      inventory and rule set produce it, up to the identities normalization may add. */
  lemma AcceptedIffProduced(v: Policy, fingerprintComplete: bool, h: ContextHash, text: Row -> string)
    ensures PolicyOk(v, fingerprintComplete, h, text) <==>
            exists inv, rules :: Produces(inv, rules, v, fingerprintComplete, h, text)
  {
    if PolicyOk(v, fingerprintComplete, h, text) {
      var inv := WireInventory(v.report);
      CollectedIsSet(v.report.expected);
      ReportAcceptedIff(inv, fingerprintComplete, h);
      assert Produces(inv, v.rules, v, fingerprintComplete, h, text);
    }
    if inv, rules :| Produces(inv, rules, v, fingerprintComplete, h, text) {
      ReportAcceptedIff(inv, fingerprintComplete, h);
      CollectSorted(inv.expected);
      assert WireInventory(v.report) == inv;
    }
  }

  lemma {:induction false} CollectedIsSet(rows: seq<Unit>)
    ensures IsUnitSet(CollectUnits(rows))
  {
    if rows != [] {
      CollectedIsSet(rows[1..]);
      InsertedIsSet(CollectUnits(rows[1..]), rows[0]);
    }
  }

  lemma {:induction false} InsertedIsSet(us: seq<Unit>, u: Unit)
    requires IsUnitSet(us)
    ensures IsUnitSet(InsertUnit(us, u))
  {
    if us != [] {
      ListTrichotomy(UnitKey(u), UnitKey(us[0]));
      if ListLess(UnitKey(u), UnitKey(us[0])) {
        forall j | 0 < j < |us| ensures ListLess(UnitKey(u), UnitKey(us[j])) {
          ListTransitive(UnitKey(u), UnitKey(us[0]), UnitKey(us[j]));
        }
      } else if u != us[0] {
        KeySeparates(u, us[0]);
        var rest := InsertUnit(us[1..], u);
        InsertedIsSet(us[1..], u);
        forall j | 0 <= j < |rest| ensures ListLess(UnitKey(us[0]), UnitKey(rest[j])) {
          assert rest[j] in Elements(us[1..]) + {u};
        }
      }
    }
  }

  lemma KeySeparates(u: Unit, v: Unit)
    requires u != v
    ensures UnitKey(u) != UnitKey(v)
  {
    assert UnitKey(u)[0] == u.manifestDir && UnitKey(u)[1] == u.sourceRoot;
    assert UnitKey(v)[0] == v.manifestDir && UnitKey(v)[1] == v.sourceRoot;
    assert UnitKey(u)[2] == (if u.test then "true" else "false");
    assert UnitKey(v)[2] == (if v.test then "true" else "false");
    assert |"true"| != |"false"|;
  }

  /** Whatever identities normalization gives the rows, the produced payload still passes. */
  lemma NormalizedPolicyAccepted(inv: Inventory, rules: seq<Rule>, fingerprintComplete: bool, h: ContextHash,
                                 text: Row -> string, v: Policy)
    requires IsUnitSet(inv.expected) && InventoryOk(inv, h)
    requires var made := MakePolicy(inv, rules, fingerprintComplete, h, text);
             v == made.(violations := v.violations) && Stripped(v.violations) == Stripped(made.violations)
    ensures PolicyOk(v, fingerprintComplete, h, text)
  {
    MadeFresh(inv, rules, fingerprintComplete, h, text);
    assert Produces(inv, rules, v, fingerprintComplete, h, text);
    AcceptedIffProduced(v, fingerprintComplete, h, text);
  }

  lemma MadeFresh(inv: Inventory, rules: seq<Rule>, fingerprintComplete: bool, h: ContextHash, text: Row -> string)
    ensures var rows := MakePolicy(inv, rules, fingerprintComplete, h, text).violations; Stripped(rows) == rows
  {
    ProjectedShapes(inv.profiles, h);
    SortedFresh(G.Project(inv.profiles, h), rules, text);
  }

  lemma SortedFresh(gs: seq<G.Graph>, rules: seq<Rule>, text: Row -> string)
    requires Shaped(gs)
    ensures var rows := SortRows(text, GraphRows(gs, rules)); Stripped(rows) == rows
  {
    FreshRows(gs, rules);
    var rows := SortRows(text, GraphRows(gs, rules));
    Permutations.SameMembers(rows, GraphRows(gs, rules));
    AlreadyStripped(rows);
  }

  lemma AlreadyStripped(rows: seq<Row>)
    requires forall row :: row in rows ==> row.id == None && row.identityVersion == None
    ensures Stripped(rows) == rows
  {
  }

  // ----- What the rows and the confidence say -----

  /** The violation of one rule by one edge of one context. */
  ghost predicate Violates(gs: seq<G.Graph>, rules: seq<Rule>, g: G.Graph, rule: Rule, e: G.Edge)
    requires Shaped(gs)
  {
    && g in gs && rule in rules && e in g.edges && rule.level != Off
    && Selects(rule.from, g.modules[e.source].selector)
    && (|| Selects(rule.deny, g.modules[e.target].selector)
        || (rule.allow != [] && !Selects(rule.allow, g.modules[e.target].selector)))
  }

  lemma {:induction false} EdgeRowsMembers(g: G.Graph, rule: Rule, edges: seq<G.Edge>, row: Row)
    requires EndsKnown(g, edges)
    ensures row in EdgeRows(g, rule, edges) <==> exists e :: e in edges && row in EdgeRow(g, rule, e)
  {
    if edges != [] {
      var front, last := edges[..|edges| - 1], edges[|edges| - 1];
      assert edges == front + [last];
      EdgeRowsMembers(g, rule, front, row);
      assert forall e :: e in edges <==> e in front || e == last;
    }
  }

  ghost predicate HasRow(g: G.Graph, rules: seq<Rule>, row: Row)
    requires EndsKnown(g, g.edges)
  {
    exists rule, e :: rule in rules && rule.level != Off && e in g.edges && row in EdgeRow(g, rule, e)
  }

  lemma {:induction false} RuleRowsMembers(g: G.Graph, rules: seq<Rule>, row: Row)
    requires EndsKnown(g, g.edges)
    ensures row in RuleRows(g, rules) <==> HasRow(g, rules, row)
  {
    if rules != [] {
      var front, last := rules[..|rules| - 1], rules[|rules| - 1];
      assert rules == front + [last];
      RuleRowsMembers(g, front, row);
      EdgeRowsMembers(g, last, g.edges, row);
      assert forall r :: r in rules <==> r in front || r == last;
    }
  }

  lemma {:induction false} GraphRowsMembers(gs: seq<G.Graph>, rules: seq<Rule>, row: Row)
    requires Shaped(gs)
    ensures row in GraphRows(gs, rules) <==> exists g :: g in gs && HasRow(g, rules, row)
  {
    if gs != [] {
      var front, last := gs[..|gs| - 1], gs[|gs| - 1];
      assert gs == front + [last] && last in gs;
      GraphRowsMembers(front, rules, row);
      RuleRowsMembers(last, rules, row);
      LastGraphRows(gs, rules, row);
    }
  }

  lemma {:induction false} LastGraphRows(gs: seq<G.Graph>, rules: seq<Rule>, row: Row)
    requires Shaped(gs) && gs != [] && gs[|gs| - 1] in gs
    ensures row in GraphRows(gs, rules) <==>
            row in GraphRows(gs[..|gs| - 1], rules) || row in RuleRows(gs[|gs| - 1], rules)
  {
  }

  lemma FreshRows(gs: seq<G.Graph>, rules: seq<Rule>)
    requires Shaped(gs)
    ensures forall row :: row in GraphRows(gs, rules) ==> row.id == None && row.identityVersion == None
  {
    forall row | row in GraphRows(gs, rules) ensures row.id == None && row.identityVersion == None {
      GraphRowsMembers(gs, rules, row);
    }
  }

  /** The row of a violation: the rule, the context, both ends, where the source is, and where every reference is. */
  ghost predicate Tells(row: Row, g: G.Graph, rule: Rule, e: G.Edge)
    requires e.source in g.modules && e.target in g.modules
  {
    var source, target := g.modules[e.source], g.modules[e.target];
    && row.ruleId == rule.id && row.severity == rule.level && row.contextId == g.contextId
    && row.source == source.id && row.sourceSelector == source.selector
    && row.target == target.id && row.targetSelector == target.selector
    && row.moduleKey == source.modulePath && row.packageName == source.packageName
    && (match source.origin
        case Some(Origin(_, _, Some(at))) => row.path == Some(at.path) && row.line == Some(at.line)
        case _ => row.path == None && row.line == None)
    && row.referenceCount == |e.observations| == |row.origins|
    && forall k :: 0 <= k < |row.origins| ==> row.origins[k] == e.observations[k].origin
  }

  lemma RowTells(g: G.Graph, rule: Rule, e: G.Edge, row: Row)
    requires e.source in g.modules && e.target in g.modules && row in EdgeRow(g, rule, e)
    ensures Tells(row, g, rule, e)
  {
    var source, target := g.modules[e.source], g.modules[e.target];
    ViolationMeaning(rule, source.id, target.id, source.selector, target.selector);
  }

  ghost predicate EdgeViolates(g: G.Graph, rule: Rule, e: G.Edge)
    requires e.source in g.modules && e.target in g.modules
  {
    && Selects(rule.from, g.modules[e.source].selector)
    && (|| Selects(rule.deny, g.modules[e.target].selector)
        || (rule.allow != [] && !Selects(rule.allow, g.modules[e.target].selector)))
  }

  ghost function Violating(g: G.Graph, rule: Rule, edges: seq<G.Edge>): set<nat>
    requires EndsKnown(g, edges)
  {
    set k | 0 <= k < |edges| && edges[k] in edges && EdgeViolates(g, rule, edges[k])
  }

  lemma RowIffViolates(g: G.Graph, rule: Rule, e: G.Edge)
    requires e.source in g.modules && e.target in g.modules
    ensures |EdgeRow(g, rule, e)| == if EdgeViolates(g, rule, e) then 1 else 0
  {
    var source, target := g.modules[e.source], g.modules[e.target];
    ViolationMeaning(rule, source.id, target.id, source.selector, target.selector);
  }

  lemma LastViolating(g: G.Graph, rule: Rule, front: seq<G.Edge>, last: G.Edge)
    requires EndsKnown(g, front + [last]) && EndsKnown(g, front) && last.source in g.modules && last.target in g.modules
    ensures |Violating(g, rule, front + [last])| == |Violating(g, rule, front)| + if EdgeViolates(g, rule, last) then 1 else 0
  {
    var edges := front + [last];
    assert forall k :: 0 <= k < |front| ==> edges[k] == front[k];
    assert edges[|front|] == last;
    assert Violating(g, rule, edges) == Violating(g, rule, front) + (if EdgeViolates(g, rule, last) then {|front|} else {});
  }

  /** A rule has just one row for each edge that violates it. */
  lemma {:induction false} OneRowEach(g: G.Graph, rule: Rule, edges: seq<G.Edge>)
    requires EndsKnown(g, edges)
    ensures |EdgeRows(g, rule, edges)| == |Violating(g, rule, edges)|
  {
    if edges != [] {
      var front, last := edges[..|edges| - 1], edges[|edges| - 1];
      assert edges == front + [last] && last in edges && forall e :: e in front ==> e in edges;
      OneRowEach(g, rule, front);
      RowIffViolates(g, rule, last);
      LastViolating(g, rule, front, last);
    }
  }

  /** So the rows are as many as there are contexts, enabled rules and edges that violate them. */
  lemma RowsCounted(gs: seq<G.Graph>, g: G.Graph, rules: seq<Rule>, rule: Rule)
    requires Shaped(gs) && G.WellShaped(g)
    ensures RuleRows(g, []) == []
    ensures |RuleRows(g, rules + [rule])| ==
            |RuleRows(g, rules)| + if rule.level.Off? then 0 else |Violating(g, rule, g.edges)|
    ensures GraphRows([], rules) == [] && Shaped(gs + [g])
    ensures |GraphRows(gs + [g], rules)| == |GraphRows(gs, rules)| + |RuleRows(g, rules)|
  {
    OneRowEach(g, rule, g.edges);
    assert (rules + [rule])[..|rules|] == rules && (gs + [g])[..|gs|] == gs;
  }

  ghost predicate TextOrdered(text: Row -> string, rows: seq<Row>) {
    forall i, j :: 0 <= i < j < |rows| ==> !Less(text(rows[j]), text(rows[i]))
  }

  ghost predicate NoneBelow(text: Row -> string, first: Row, rest: seq<Row>) {
    forall j :: 0 <= j < |rest| ==> !Less(text(rest[j]), text(first))
  }

  lemma {:induction false} InsertedOrdered(text: Row -> string, row: Row, rows: seq<Row>)
    requires TextOrdered(text, rows)
    ensures TextOrdered(text, InsertRow(text, row, rows))
  {
    if rows != [] {
      if Less(text(rows[0]), text(row)) {
        InsertedOrdered(text, row, rows[1..]);
        var rest := InsertRow(text, row, rows[1..]);
        FirstStaysFirst(text, row, rows);
        OrderedCons(text, rows[0], rest);
      } else {
        forall j | 0 <= j < |rows| ensures !Less(text(rows[j]), text(row)) {
          if j > 0 { NotBelow(text(row), text(rows[0]), text(rows[j])); }
        }
        assert NoneBelow(text, row, rows);
        OrderedCons(text, row, rows);
      }
    }
  }

  lemma OrderedCons(text: Row -> string, first: Row, rest: seq<Row>)
    requires TextOrdered(text, rest) && NoneBelow(text, first, rest)
    ensures TextOrdered(text, [first] + rest)
  {
  }

  lemma {:induction false} FirstStaysFirst(text: Row -> string, row: Row, rows: seq<Row>)
    requires rows != [] && TextOrdered(text, rows) && Less(text(rows[0]), text(row))
    ensures NoneBelow(text, rows[0], InsertRow(text, row, rows[1..]))
  {
    var rest := InsertRow(text, row, rows[1..]);
    Trichotomy(text(rows[0]), text(row));
    forall j | 0 <= j < |rest| ensures !Less(text(rest[j]), text(rows[0])) {
      assert rest[j] in multiset(rest);
      assert rest[j] == row || rest[j] in rows[1..];
    }
  }

  lemma NotBelow(a: string, b: string, c: string)
    requires !Less(b, a) && !Less(c, b)
    ensures !Less(c, a)
  {
    Trichotomy(a, b);
    Trichotomy(b, c);
    Trichotomy(a, c);
    if Less(c, a) && Less(a, b) { Transitive(c, a, b); }
  }

  lemma {:induction false} RowsOrdered(text: Row -> string, rows: seq<Row>)
    ensures TextOrdered(text, SortRows(text, rows))
  {
    if rows != [] {
      RowsOrdered(text, rows[1..]);
      InsertedOrdered(text, rows[0], SortRows(text, rows[1..]));
    }
  }

  /** The summary counts what the payload holds, and the violations are listed in the order of their texts. */
  lemma SummaryMeans(inv: Inventory, rules: seq<Rule>, fingerprintComplete: bool, h: ContextHash, text: Row -> string)
    ensures var v := MakePolicy(inv, rules, fingerprintComplete, h, text);
            && v.rules == rules && v.summary.ruleCount == |rules|
            && v.summary.violationCount == |v.violations| && v.summary.contextCount == |inv.profiles|
            && TextOrdered(text, v.violations)
            && v.report == MakeReport(inv, fingerprintComplete, h)
  {
    ProjectedShapes(inv.profiles, h);
    var rows := GraphRows(G.Project(inv.profiles, h), rules);
    RowsOrdered(text, rows);
    assert |SortRows(text, rows)| == |multiset(rows)|;
  }

  lemma {:induction false} UnresolvedCounted(gs: seq<G.Graph>, g: G.Graph)
    ensures UnresolvedCount([]) == 0 && UnresolvedCount(gs + [g]) == UnresolvedCount(gs) + |g.unresolved|
    ensures EdgeCount([]) == 0 && EdgeCount(gs + [g]) == EdgeCount(gs) + |g.edges|
  {
    assert (gs + [g])[..|gs|] == gs;
  }

  lemma ViolationReported(inv: Inventory, rules: seq<Rule>, fingerprintComplete: bool, h: ContextHash,
                          text: Row -> string, g: G.Graph, rule: Rule, e: G.Edge) returns (row: Row)
    requires Shaped(G.Project(inv.profiles, h)) && Violates(G.Project(inv.profiles, h), rules, g, rule, e)
    ensures row in MakePolicy(inv, rules, fingerprintComplete, h, text).violations && row in EdgeRow(g, rule, e)
  {
    var gs := G.Project(inv.profiles, h);
    ViolationHasRow(gs, rules, g, rule, e);
    row := EdgeRow(g, rule, e)[0];
    Permutations.SameMembers(SortRows(text, GraphRows(gs, rules)), GraphRows(gs, rules));
  }

  /** No violation goes unreported: an enabled rule violated, in the declared meaning of its
      patterns, by an edge of some context has a row that tells all about it. */
  lemma EveryViolationReported(inv: Inventory, rules: seq<Rule>, fingerprintComplete: bool, h: ContextHash,
                               text: Row -> string, g: G.Graph, rule: Rule, e: G.Edge) returns (row: Row)
    requires Shaped(G.Project(inv.profiles, h)) && Violates(G.Project(inv.profiles, h), rules, g, rule, e)
    ensures row in MakePolicy(inv, rules, fingerprintComplete, h, text).violations && Tells(row, g, rule, e)
  {
    row := ViolationReported(inv, rules, fingerprintComplete, h, text, g, rule, e);
    RowTells(g, rule, e, row);
  }

  lemma RowReported(inv: Inventory, rules: seq<Rule>, fingerprintComplete: bool, h: ContextHash,
                    text: Row -> string, row: Row) returns (g: G.Graph, rule: Rule, e: G.Edge)
    requires row in MakePolicy(inv, rules, fingerprintComplete, h, text).violations
    ensures Shaped(G.Project(inv.profiles, h)) && Violates(G.Project(inv.profiles, h), rules, g, rule, e)
    ensures row in EdgeRow(g, rule, e)
  {
    ProjectedShapes(inv.profiles, h);
    var gs := G.Project(inv.profiles, h);
    Permutations.SameMembers(SortRows(text, GraphRows(gs, rules)), GraphRows(gs, rules));
    g, rule, e := RowHasViolation(gs, rules, row);
  }

  /** No row is invented. */
  lemma EveryRowIsViolation(inv: Inventory, rules: seq<Rule>, fingerprintComplete: bool, h: ContextHash,
                            text: Row -> string, row: Row) returns (g: G.Graph, rule: Rule, e: G.Edge)
    requires row in MakePolicy(inv, rules, fingerprintComplete, h, text).violations
    ensures Shaped(G.Project(inv.profiles, h)) && Violates(G.Project(inv.profiles, h), rules, g, rule, e)
    ensures Tells(row, g, rule, e)
  {
    g, rule, e := RowReported(inv, rules, fingerprintComplete, h, text, row);
    RowTells(g, rule, e, row);
  }

  lemma ViolationHasRow(gs: seq<G.Graph>, rules: seq<Rule>, g: G.Graph, rule: Rule, e: G.Edge)
    requires Shaped(gs) && Violates(gs, rules, g, rule, e)
    ensures EdgeRow(g, rule, e) != [] && EdgeRow(g, rule, e)[0] in GraphRows(gs, rules)
  {
    var s, t := g.modules[e.source], g.modules[e.target];
    ViolationMeaning(rule, s.id, t.id, s.selector, t.selector);
    var row := EdgeRow(g, rule, e)[0];
    assert HasRow(g, rules, row);
    GraphRowsMembers(gs, rules, row);
  }

  lemma RowHasViolation(gs: seq<G.Graph>, rules: seq<Rule>, row: Row) returns (g: G.Graph, rule: Rule, e: G.Edge)
    requires Shaped(gs) && row in GraphRows(gs, rules)
    ensures Violates(gs, rules, g, rule, e) && row in EdgeRow(g, rule, e)
  {
    GraphRowsMembers(gs, rules, row);
    g :| g in gs && HasRow(g, rules, row);
    rule, e :| rule in rules && rule.level != Off && e in g.edges && row in EdgeRow(g, rule, e);
    var s, t := g.modules[e.source], g.modules[e.target];
    ViolationMeaning(rule, s.id, t.id, s.selector, t.selector);
  }

  lemma {:induction false} NoGraphReasons(gs: seq<G.Graph>)
    ensures GraphReasons(gs) == [] <==> forall g :: g in gs ==> g.missing == []
  {
    if gs != [] {
      var front, last := gs[..|gs| - 1], gs[|gs| - 1];
      assert gs == front + [last];
      NoGraphReasons(front);
      assert |Prefixed(last.contextId, last.missing)| == |last.missing|;
      assert forall g :: g in gs <==> g in front || g == last;
    }
  }

  lemma NothingMissing(inv: Inventory, gs: seq<G.Graph>, fingerprintComplete: bool)
    ensures PolicyConfidence(inv, gs, fingerprintComplete).complete <==>
            && inv.reasons == [] && fingerprintComplete && Covered(inv.profiles, inv.expected)
            && gs != [] && forall g :: g in gs ==> g.missing == []
  {
    NoGraphReasons(gs);
    var reasons := inv.reasons
      + (if fingerprintComplete then [] else ["quality input fingerprint is incomplete"])
      + (if Covered(inv.profiles, inv.expected) then [] else ["architecture compilation coverage"])
      + GraphReasons(gs);
    NothingToSort(reasons);
  }

  /** Complete confidence certifies exactly this: nothing failed, the inputs were all observed, the
      expected contexts were all captured, every capture is itself complete, and every reference of
      every context sits on an edge or inside its own module. */
  lemma CompleteMeans(inv: Inventory, rules: seq<Rule>, fingerprintComplete: bool, h: ContextHash, text: Row -> string)
    ensures MakePolicy(inv, rules, fingerprintComplete, h, text).confidence.complete <==>
            && inv.reasons == [] && fingerprintComplete
            && inv.profiles != [] && Covered(inv.profiles, inv.expected)
            && forall p :: p in inv.profiles ==>
                 && p.architecture.Some? && Capture.MissingEvidence(p.architecture.value) == []
                 && G.ProjectContext(p, inv.profiles, h).unresolved == []
  {
    var gs := G.Project(inv.profiles, h);
    NothingMissing(inv, gs, fingerprintComplete);
    forall p | p in inv.profiles ensures G.ProjectContext(p, inv.profiles, h) in gs {
      var i :| 0 <= i < |inv.profiles| && inv.profiles[i] == p;
      assert gs[i] == G.ProjectContext(p, inv.profiles, h);
    }
    forall g | g in gs ensures exists p :: p in inv.profiles && g == G.ProjectContext(p, inv.profiles, h) {
      var i :| 0 <= i < |gs| && gs[i] == g;
      assert inv.profiles[i] in inv.profiles;
    }
    forall p | p in inv.profiles
      ensures G.ProjectContext(p, inv.profiles, h).missing == [] <==>
              p.architecture.Some? && Capture.MissingEvidence(p.architecture.value) == []
              && G.ProjectContext(p, inv.profiles, h).unresolved == []
    {
      G.NothingMissingIffResolved(p, inv.profiles, h);
    }
  }
}
