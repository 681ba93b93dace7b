/** The policy gate: it passes only on complete, current evidence that meets every enabled policy
    (src/policy.rs, src/policy/inputs.rs). */
module Gate {
  import opened Order
  import opened GateInputs
  import opened Waivers
  import Patterns

  datatype FailPolicy =
    | OnPartial | OnTestFailure | OnPracticeFailure | OnReliabilityFinding | OnOperationalFailure
    | OnRegression | OnThreshold

  /** Everything that can be named in `failed_policies`. */
  datatype PolicyName = Cli(policy: FailPolicy) | ConfiguredRules | ArchitecturePolicy | ExternalEvidence

  function Name(p: PolicyName): string {
    match p
    case ConfiguredRules => "configured-rules"
    case ArchitecturePolicy => "architecture-rules"
    case ExternalEvidence => "external-evidence"
    case Cli(policy) =>
      match policy
      case OnPartial => "partial"
      case OnTestFailure => "test-failure"
      case OnPracticeFailure => "practice-failure"
      case OnReliabilityFinding => "reliability-finding"
      case OnOperationalFailure => "operational-failure"
      case OnRegression => "regression"
      case OnThreshold => "threshold"
  }

  /** Names tell the policies apart. */
  lemma NamesTell(p: PolicyName)
    ensures Name(p) == "configured-rules" <==> p == ConfiguredRules
    ensures Name(p) == "architecture-rules" <==> p == ArchitecturePolicy
    ensures Name(p) == "external-evidence" <==> p == ExternalEvidence
    ensures Name(p) == "partial" <==> p == Cli(OnPartial)
    ensures Name(p) == "test-failure" <==> p == Cli(OnTestFailure)
    ensures Name(p) == "practice-failure" <==> p == Cli(OnPracticeFailure)
    ensures Name(p) == "reliability-finding" <==> p == Cli(OnReliabilityFinding)
    ensures Name(p) == "operational-failure" <==> p == Cli(OnOperationalFailure)
    ensures Name(p) == "regression" <==> p == Cli(OnRegression)
    ensures Name(p) == "threshold" <==> p == Cli(OnThreshold)
  {
    var name := Name(p);
    assert name[0] == 'c' || name[0] == 'a' || name[0] == 'e' || name[0] == 'p' || name[0] == 't' || name[0] == 'r'
           || name[0] == 'o';
    assert name[1] == 'o' || name[1] == 'r' || name[1] == 'x' || name[1] == 'a' || name[1] == 'e' || name[1] == 'p'
           || name[1] == 'h';
  }

  datatype ArchitectureRule = ArchitectureRule(id: string, level: Patterns.Level)

  /** The blocking-rule inventory: the family of each rule and the artifact of each family. */
  datatype Contracts = Contracts(rules: map<string, string>, families: map<string, Artifact>)

  datatype Delta = CoverageDelta(decrease: real) | BenchmarkDelta(direction: Option<string>, increase: Option<real>)

  datatype Comparison = Comparison(scores: seq<real>, evidence: seq<Delta>)

  /** A baseline directory: the artifacts in it and, when it can be compared at all, the comparison. */
  datatype Baseline = Baseline(files: set<Artifact>, comparison: Option<Comparison>)

  datatype Request = Request(
    policy: Policy, architecture: seq<ArchitectureRule>, contracts: Option<Contracts>, inputs: Inputs,
    external: seq<Finding>, externalReasons: seq<string>, baseline: Option<Baseline>, failOn: seq<FailPolicy>,
    maxScore: real, maxRegression: real)

  // ----- Failures of the inputs -----

  datatype Cause =
    | NotAvailable(artifact: Artifact, status: InputStatus)
    | NoBaseline
    | UnusableBaseline
    | Incomparable
    | UnknownTests
    | UnknownScores
    | External(reason: string)

  datatype Failure = Failure(policy: PolicyName, cause: Cause)

  function RequiredFiles(p: FailPolicy): seq<Artifact> {
    match p
    case OnPartial => TOOLS
    case OnTestFailure => [Correctness]
    case OnPracticeFailure => [RustPractices]
    case OnReliabilityFinding => [Reliability]
    case OnOperationalFailure => [OperationalEvidence]
    case OnThreshold => [Map]
    case OnRegression => [Map]
  }

  predicate AllTestsKnown(document: Document) {
    document.tests.lastRunPassed && document.tests.unknown == Some(0)
  }

  predicate UnknownScore(document: Document) {
    None in document.scores
  }

  /** Coverage and performance are compared when either side has them. */
  predicate Auxiliary(q: Request, a: Artifact)
    requires Loaded(q.inputs)
  {
    && a in {Coverage, Performance}
    && (!q.inputs.status[a].Missing? || (q.baseline.Some? && a in q.baseline.value.files))
  }

  /** The failures that enabling `p` can report about the inputs. */
  ghost predicate PolicyFailure(q: Request, p: FailPolicy, cause: Cause)
    requires Loaded(q.inputs)
  {
    match cause
    case NotAvailable(a, status) =>
      && status == q.inputs.status[a] && !status.Available?
      && (a in RequiredFiles(p) || (p.OnRegression? && Auxiliary(q, a)))
    case NoBaseline => p.OnRegression? && q.baseline.None?
    case UnknownTests =>
      p.OnTestFailure? && Correctness in q.inputs.documents && !AllTestsKnown(q.inputs.documents[Correctness])
    case UnknownScores =>
      && (p.OnThreshold? || p.OnRegression?)
      && Map in q.inputs.documents && UnknownScore(q.inputs.documents[Map])
    case _ => false
  }

  predicate EnforcesArchitecture(q: Request) {
    exists rule :: rule in q.architecture && rule.level.Error?
  }

  /** The failures reported while the inputs are checked, before any finding is looked at. */
  ghost predicate InputFailure(q: Request, f: Failure)
    requires Loaded(q.inputs)
  {
    match f.policy
    case Cli(p) => p in q.failOn && PolicyFailure(q, p, f.cause)
    case ArchitecturePolicy =>
      EnforcesArchitecture(q) && f.cause == NotAvailable(ArchitectureRules, q.inputs.status[ArchitectureRules])
      && !q.inputs.status[ArchitectureRules].Available?
    case _ => false
  }

  function Require(inputs: Inputs, policy: PolicyName, a: Artifact): seq<Failure>
    requires Loaded(inputs)
  {
    if inputs.status[a].Available? then [] else [Failure(policy, NotAvailable(a, inputs.status[a]))]
  }

  function SemanticFailure(inputs: Inputs, p: FailPolicy): seq<Failure> {
    if p.OnTestFailure? && Correctness in inputs.documents && !AllTestsKnown(inputs.documents[Correctness])
    then [Failure(Cli(p), UnknownTests)]
    else if (p.OnThreshold? || p.OnRegression?) && Map in inputs.documents && UnknownScore(inputs.documents[Map])
    then [Failure(Cli(p), UnknownScores)]
    else []
  }

  method RequireRegressionInputs(q: Request) returns (failures: seq<Failure>)
    requires Loaded(q.inputs)
    ensures forall f :: f in failures <==>
              && f.policy == Cli(OnRegression)
              && ((f.cause.NoBaseline? && q.baseline.None?)
                  || (f.cause.NotAvailable? && Auxiliary(q, f.cause.artifact)
                      && f.cause.status == q.inputs.status[f.cause.artifact] && !f.cause.status.Available?))
  {
    failures := [];
    if !q.inputs.status[Coverage].Missing? || (q.baseline.Some? && Coverage in q.baseline.value.files) {
      failures := failures + Require(q.inputs, Cli(OnRegression), Coverage);
    }
    if !q.inputs.status[Performance].Missing? || (q.baseline.Some? && Performance in q.baseline.value.files) {
      failures := failures + Require(q.inputs, Cli(OnRegression), Performance);
    }
    if q.baseline.None? {
      failures := failures + [Failure(Cli(OnRegression), NoBaseline)];
    }
  }

  method PolicyFailures(q: Request, p: FailPolicy) returns (failures: seq<Failure>)
    requires Loaded(q.inputs)
    ensures forall f :: f in failures <==> f.policy == Cli(p) && PolicyFailure(q, p, f.cause)
  {
    failures := [];
    var files := RequiredFiles(p);
    for i := 0 to |files|
      invariant forall f :: f in failures <==>
                  && f.policy == Cli(p) && f.cause.NotAvailable? && f.cause.artifact in files[..i]
                  && f.cause.status == q.inputs.status[f.cause.artifact] && !f.cause.status.Available?
    {
      failures := failures + Require(q.inputs, Cli(p), files[i]);
    }
    assert files[..|files|] == files;
    if p.OnRegression? {
      var more := RequireRegressionInputs(q);
      failures := failures + more;
    }
    failures := failures + SemanticFailure(q.inputs, p);
  }

  method InputFailures(q: Request) returns (failures: seq<Failure>)
    requires Loaded(q.inputs)
    ensures forall f :: f in failures <==> InputFailure(q, f)
  {
    failures := [];
    for i := 0 to |q.failOn|
      invariant forall f :: f in failures <==>
                  f.policy.Cli? && f.policy.policy in q.failOn[..i] && PolicyFailure(q, f.policy.policy, f.cause)
    {
      var more := PolicyFailures(q, q.failOn[i]);
      failures := failures + more;
    }
    assert q.failOn[..|q.failOn|] == q.failOn;
    if EnforcesArchitecture(q) {
      failures := failures + Require(q.inputs, ArchitecturePolicy, ArchitectureRules);
    }
  }

  // ----- Rules the configuration puts a maximum on -----

  datatype Abstention =
    | MalformedContracts
    | DisabledOrColliding
    | NoCoverage
    | ArtifactNotAvailable(artifact: Artifact, status: InputStatus)
    | OwnersUnavailable
    | CheckUnavailable

  const OWNER_RULE: string := "rust.testing.required-owner"

  function ArchitectureLevel(rules: seq<ArchitectureRule>, id: string): Option<Patterns.Level> {
    if rules == [] then None
    else if rules[0].id == id then Some(rules[0].level)
    else ArchitectureLevel(rules[1..], id)
  }

  /** The artifact a rule is evaluated on. */
  function Evidence(q: Request, id: string): Option<Artifact> {
    if q.contracts.None? then None
    else
      var contracts, level := q.contracts.value, ArchitectureLevel(q.architecture, id);
      if level.Some? && (level.value.Off? || id in contracts.rules) then None
      else
        var family := if id in contracts.rules then contracts.rules[id] else "architecture";
        if (id in contracts.rules || level.Some?) && family in contracts.families
        then Some(contracts.families[family])
        else None
  }

  predicate CheckObserved(checks: seq<Check>, id: string) {
    && (exists c :: c in checks && c.ruleId == Some(id))
    && (forall c :: c in checks && c.ruleId == Some(id) ==> c.status == Some("passed") || c.status == Some("failed"))
  }

  function RuleUnavailability(q: Request, id: string): Option<Abstention>
    requires Loaded(q.inputs)
  {
    if q.contracts.None? then Some(MalformedContracts)
    else
      var contracts, level := q.contracts.value, ArchitectureLevel(q.architecture, id);
      if level.Some? && (level.value.Off? || id in contracts.rules) then Some(DisabledOrColliding)
      else
        var family := if id in contracts.rules then Some(contracts.rules[id])
                      else if level.Some? then Some("architecture") else None;
        if family.None? || family.value !in contracts.families then Some(NoCoverage)
        else
          var file := contracts.families[family.value];
          if !q.inputs.status[file].Available? then Some(ArtifactNotAvailable(file, q.inputs.status[file]))
          else
            var document := q.inputs.documents[file];
            if id == OWNER_RULE then if document.ownersUnavailable then Some(OwnersUnavailable) else None
            else if file.RustPractices? && !CheckObserved(document.checks, id) then Some(CheckUnavailable)
            else None
  }

  /** A rule is evaluated only on an available artifact of its own, and a practice check only once it
      has run to a result. */
  lemma EvaluatedMeans(q: Request, id: string)
    requires Loaded(q.inputs) && RuleUnavailability(q, id).None?
    ensures Evidence(q, id).Some?
    ensures var a := Evidence(q, id).value;
            && q.inputs.status[a].Available?
            && (id == OWNER_RULE ==> !q.inputs.documents[a].ownersUnavailable)
            && (a.RustPractices? && id != OWNER_RULE ==> CheckObserved(q.inputs.documents[a].checks, id))
  {
  }

  datatype RuleStatus = Disabled | NotEvaluated | Exceeded | Passed

  datatype RuleOutcome = RuleOutcome(
    ruleId: string, level: Patterns.Level, maximum: nat, observed: Option<nat>, observedFindings: nat,
    excess: Option<nat>, excluded: nat, complete: bool, reason: Option<Abstention>, status: RuleStatus)

  function About(id: string): Finding -> bool {
    (f: Finding) => f.ruleId == Some(id)
  }

  function Included(rule: PolicyRule): Finding -> bool {
    f => Includes(rule, f)
  }

  function EvaluateRule(id: string, rule: PolicyRule, active: seq<Finding>, unavailable: Option<Abstention>):
    RuleOutcome
  {
    var matching := Keep(About(id), active);
    var observed := |Keep(Included(rule), matching)|;
    var excluded := if |matching| >= observed then |matching| - observed else 0;
    var disabled := rule.level.Off?;
    var reason := if disabled then None else unavailable;
    var complete := !disabled && reason.None?;
    RuleOutcome(id, rule.level, rule.max, if complete then Some(observed) else None, observed,
                if complete then Some(if observed > rule.max then observed - rule.max else 0) else None,
                excluded, complete, reason,
                if disabled then Disabled else if !complete then NotEvaluated
                else if observed > rule.max then Exceeded else Passed)
  }

  // ----- The findings -----

  function FindingsFrom(q: Request, source: Source): seq<Finding> {
    if source.FromExternal? then q.external
    else if ArtifactOf(source) in q.inputs.documents then q.inputs.documents[ArtifactOf(source)].findings
    else []
  }

  function ArtifactOf(source: Source): Artifact
    requires !source.FromExternal?
  {
    match source
    case FromPractices => RustPractices
    case FromReliability => Reliability
    case FromArchitecture => ArchitectureRules
    case FromTestQuality => TestQuality
  }

  function ActiveFrom(q: Request, source: Source): seq<Finding> {
    Keep(IsActive(q.policy, source), FindingsFrom(q, source))
  }

  function AllActive(q: Request): seq<Finding> {
    ActiveFrom(q, FromPractices) + ActiveFrom(q, FromReliability) + ActiveFrom(q, FromArchitecture)
    + ActiveFrom(q, FromTestQuality) + ActiveFrom(q, FromExternal)
  }

  /** The active findings of one source that count against a rule. */
  function CountedBy(q: Request, source: Source, id: string, rule: PolicyRule): Finding -> bool {
    (f: Finding) => PartOf(q.policy, source, f) in {Errors, Warnings} && f.ruleId == Some(id) && Includes(rule, f)
  }

  function Count(q: Request, source: Source, id: string, rule: PolicyRule): nat {
    |Keep(CountedBy(q, source, id, rule), FindingsFrom(q, source))|
  }

  function CountAll(q: Request, id: string, rule: PolicyRule): nat {
    Count(q, FromPractices, id, rule) + Count(q, FromReliability, id, rule) + Count(q, FromArchitecture, id, rule)
    + Count(q, FromTestQuality, id, rule) + Count(q, FromExternal, id, rule)
  }

  lemma CountOneSource(q: Request, source: Source, id: string, rule: PolicyRule)
    ensures |Keep(Included(rule), Keep(About(id), ActiveFrom(q, source)))| == Count(q, source, id, rule)
  {
    var findings := FindingsFrom(q, source);
    var both: Finding -> bool := (f: Finding) => IsActive(q.policy, source)(f) && About(id)(f);
    KeepKeep(IsActive(q.policy, source), About(id), both, findings);
    KeepKeep(both, Included(rule), CountedBy(q, source, id, rule), findings);
  }

  lemma CountConcat(id: string, rule: PolicyRule, a: seq<Finding>, b: seq<Finding>)
    ensures |Keep(Included(rule), Keep(About(id), a + b))|
         == |Keep(Included(rule), Keep(About(id), a))| + |Keep(Included(rule), Keep(About(id), b))|
  {
    KeepConcat(About(id), a, b);
    KeepConcat(Included(rule), Keep(About(id), a), Keep(About(id), b));
  }

  /** A rule observes exactly the findings of the five sources that are about it, unwaived, selected and
      not excluded. */
  lemma RuleCounts(q: Request, id: string, rule: PolicyRule)
    ensures |Keep(Included(rule), Keep(About(id), AllActive(q)))| == CountAll(q, id, rule)
  {
    var p, r, a, t, e := ActiveFrom(q, FromPractices), ActiveFrom(q, FromReliability),
                         ActiveFrom(q, FromArchitecture), ActiveFrom(q, FromTestQuality), ActiveFrom(q, FromExternal);
    CountConcat(id, rule, p + r + a + t, e);
    CountConcat(id, rule, p + r + a, t);
    CountConcat(id, rule, p + r, a);
    CountConcat(id, rule, p, r);
    CountOneSource(q, FromPractices, id, rule);
    CountOneSource(q, FromReliability, id, rule);
    CountOneSource(q, FromArchitecture, id, rule);
    CountOneSource(q, FromTestQuality, id, rule);
    CountOneSource(q, FromExternal, id, rule);
  }

  ghost predicate RuleHolds(q: Request, id: string)
    requires Loaded(q.inputs) && id in q.policy.rules
  {
    var rule := q.policy.rules[id];
    rule.level.Error? ==> RuleUnavailability(q, id).None? && CountAll(q, id, rule) <= rule.max
  }

  // ----- The other evidence -----

  function StaleArtifacts(inputs: Inputs): set<Artifact> {
    set a | a in inputs.status && inputs.status[a].Stale?
  }

  function PartialArtifacts(inputs: Inputs): set<Artifact> {
    (set a | a in inputs.documents && inputs.documents[a].partial)
    + StaleArtifacts(inputs)
    + (set a | a in TOOLS && a !in inputs.documents)
  }

  predicate TestsFailed(inputs: Inputs) {
    Correctness in inputs.documents ==>
      var tests := inputs.documents[Correctness].tests;
      tests.failed > 0 || tests.runFailed || tests.compileFailed
  }

  predicate Breached(inputs: Inputs) {
    OperationalEvidence in inputs.documents && "breached" in inputs.documents[OperationalEvidence].operations
  }

  predicate OverThreshold(q: Request) {
    && Map in q.inputs.documents
    && exists s :: s in q.inputs.documents[Map].scores && s.Some? && s.value > q.maxScore
  }

  /** A comparison is made only with an available map and a readable baseline. */
  function Compared(q: Request): Comparison
    requires Loaded(q.inputs)
  {
    if q.inputs.status[Map].Available? && q.baseline.Some? && q.baseline.value.comparison.Some?
    then q.baseline.value.comparison.value
    else Comparison([], [])
  }

  predicate DeltaRegressed(delta: Delta, maximum: real) {
    match delta
    case CoverageDelta(decrease) => decrease > maximum
    case BenchmarkDelta(direction, increase) =>
      direction == Some("regressed") && increase.Some? && increase.value > maximum
  }

  predicate DeltaIncomparable(delta: Delta) {
    && delta.BenchmarkDelta?
    && delta.direction != Some("improved") && delta.direction != Some("regressed")
    && delta.direction != Some("within_noise") && delta.direction != Some("unchanged")
  }

  predicate Regressed(q: Request)
    requires Loaded(q.inputs)
  {
    var comparison := Compared(q);
    || (exists d :: d in comparison.scores && d > q.maxRegression)
    || (exists d :: d in comparison.evidence && DeltaRegressed(d, q.maxRegression))
  }

  predicate HasIncomparable(q: Request)
    requires Loaded(q.inputs)
  {
    exists d :: d in Compared(q).evidence && DeltaIncomparable(d)
  }

  predicate UsesExternal(policy: Policy) {
    exists id :: id in policy.rules && "external." <= id && !policy.rules[id].level.Off?
  }

  // ----- The verdict -----

  predicate HasErrors(q: Request, source: Source) {
    exists f :: f in FindingsFrom(q, source) && PartOf(q.policy, source, f) == Errors
  }

  predicate CliEvidence(q: Request, p: FailPolicy)
    requires Loaded(q.inputs)
  {
    match p
    case OnPartial => PartialArtifacts(q.inputs) != {}
    case OnTestFailure => TestsFailed(q.inputs)
    case OnPracticeFailure => HasErrors(q, FromPractices)
    case OnReliabilityFinding => HasErrors(q, FromReliability)
    case OnOperationalFailure => Breached(q.inputs)
    case OnRegression => Regressed(q)
    case OnThreshold => OverThreshold(q)
  }

  /** Every failure a run reports, those found while findings and baselines are looked at included. */
  ghost predicate RunFailure(q: Request, f: Failure)
    requires Loaded(q.inputs)
  {
    || InputFailure(q, f)
    || (f.policy.ExternalEvidence? && UsesExternal(q.policy)
        && f.cause.External? && f.cause.reason in q.externalReasons)
    || (f == Failure(Cli(OnRegression), UnusableBaseline)
        && q.inputs.status[Map].Available? && q.baseline.Some? && q.baseline.value.comparison.None?)
    || (f == Failure(Cli(OnRegression), Incomparable) && OnRegression in q.failOn && HasIncomparable(q))
  }

  ghost predicate Reported(q: Request, p: PolicyName)
    requires Loaded(q.inputs)
  {
    exists cause :: RunFailure(q, Failure(p, cause))
  }

  ghost predicate Fails(q: Request, p: PolicyName)
    requires Loaded(q.inputs)
  {
    || Reported(q, p)
    || match p
       case Cli(policy) => policy in q.failOn && CliEvidence(q, policy)
       case ConfiguredRules => exists id :: id in q.policy.rules && !RuleHolds(q, id)
       case ArchitecturePolicy => HasErrors(q, FromArchitecture)
       case ExternalEvidence => false
  }

  ghost predicate Passes(q: Request)
    requires Loaded(q.inputs)
  {
    forall p :: !Fails(q, p)
  }

  datatype Report = Report(
    passed: bool, enabledPolicies: seq<PolicyName>, failedPolicies: seq<string>,
    partialArtifacts: set<Artifact>, staleArtifacts: set<Artifact>, inputFailures: seq<Failure>,
    practices: Classification, reliability: Classification, architecture: Classification,
    testQuality: Classification, external: Classification, rules: seq<RuleOutcome>)

  function EnabledPolicies(q: Request): seq<PolicyName> {
    seq(|q.failOn|, i requires 0 <= i < |q.failOn| => Cli(q.failOn[i]))
    + (if q.policy.rules != map[] then [ConfiguredRules] else [])
    + (if q.architecture != [] then [ArchitecturePolicy] else [])
  }

  /** Listed as enabled are the policies asked for and those the configuration has rules for. */
  lemma EnabledMeans(q: Request, p: PolicyName)
    ensures p in EnabledPolicies(q) <==>
            || (p.Cli? && p.policy in q.failOn)
            || (p.ConfiguredRules? && exists id :: id in q.policy.rules)
            || (p.ArchitecturePolicy? && exists rule :: rule in q.architecture)
  {
    var named := seq(|q.failOn|, i requires 0 <= i < |q.failOn| => Cli(q.failOn[i]));
    if p.Cli? && p.policy in q.failOn {
      var i :| 0 <= i < |q.failOn| && q.failOn[i] == p.policy;
      assert named[i] == p;
    }
    assert q.architecture != [] ==> q.architecture[0] in q.architecture;
  }

  function Texts(names: seq<PolicyName>): seq<string> {
    seq(|names|, i requires 0 <= i < |names| => Name(names[i]))
  }

  predicate CountsAsError(outcome: RuleOutcome) {
    outcome.status in {Exceeded, NotEvaluated} && outcome.level.Error?
  }

  function FailingRules(outcomes: seq<RuleOutcome>): (r: seq<RuleOutcome>)
    ensures r != [] <==> exists i :: 0 <= i < |outcomes| && CountsAsError(outcomes[i])
  {
    if outcomes == [] then []
    else
      assert forall i :: 1 <= i < |outcomes| ==> outcomes[i] == outcomes[1..][i - 1];
      (if CountsAsError(outcomes[0]) then [outcomes[0]] else []) + FailingRules(outcomes[1..])
  }

  function OutcomeOf(q: Request, active: seq<Finding>, id: string): RuleOutcome
    requires Loaded(q.inputs) && id in q.policy.rules
  {
    EvaluateRule(id, q.policy.rules[id], active, RuleUnavailability(q, id))
  }

  /** One outcome per configured rule, in the order of the rule ids. */
  ghost predicate AllOutcomes(q: Request, active: seq<Finding>, outcomes: seq<RuleOutcome>)
    requires Loaded(q.inputs)
  {
    var ids := SortedKeys(q.policy.rules.Keys);
    && |outcomes| == |ids|
    && forall i :: 0 <= i < |ids| ==> ids[i] in q.policy.rules && outcomes[i] == OutcomeOf(q, active, ids[i])
  }

  method EvaluateRules(q: Request, active: seq<Finding>) returns (r: seq<RuleOutcome>)
    requires Loaded(q.inputs)
    ensures AllOutcomes(q, active, r)
  {
    var ids := KeysInOrder(q.policy.rules.Keys);
    assert forall i :: 0 <= i < |ids| ==> ids[i] in Elements(ids);
    r := EvaluateEach(q, active, ids);
  }

  method EvaluateEach(q: Request, active: seq<Finding>, ids: seq<string>) returns (r: seq<RuleOutcome>)
    requires Loaded(q.inputs) && forall i :: 0 <= i < |ids| ==> ids[i] in q.policy.rules
    ensures |r| == |ids| && forall i :: 0 <= i < |ids| ==> r[i] == OutcomeOf(q, active, ids[i])
  {
    r := [];
    for i := 0 to |ids|
      invariant |r| == i
      invariant forall j :: 0 <= j < i ==> r[j] == OutcomeOf(q, active, ids[j])
    {
      r := r + [OutcomeOf(q, active, ids[i])];
    }
  }

  lemma OutcomeFails(q: Request, id: string)
    requires Loaded(q.inputs) && id in q.policy.rules
    ensures CountsAsError(OutcomeOf(q, AllActive(q), id)) <==> !RuleHolds(q, id)
  {
    RuleCounts(q, id, q.policy.rules[id]);
  }

  lemma SomeRuleFails(q: Request, outcomes: seq<RuleOutcome>)
    requires Loaded(q.inputs) && AllOutcomes(q, AllActive(q), outcomes)
    ensures FailingRules(outcomes) != [] <==> exists id :: id in q.policy.rules && !RuleHolds(q, id)
  {
    if FailingRules(outcomes) != [] {
      var i :| 0 <= i < |outcomes| && CountsAsError(outcomes[i]);
      FailureNamed(q, outcomes, i);
    }
    if id :| id in q.policy.rules && !RuleHolds(q, id) {
      var i := FailureListed(q, outcomes, id);
    }
  }

  lemma FailureNamed(q: Request, outcomes: seq<RuleOutcome>, i: nat)
    requires Loaded(q.inputs) && AllOutcomes(q, AllActive(q), outcomes)
    requires i < |outcomes| && CountsAsError(outcomes[i])
    ensures var id := SortedKeys(q.policy.rules.Keys)[i]; id in q.policy.rules && !RuleHolds(q, id)
  {
    OutcomeFails(q, SortedKeys(q.policy.rules.Keys)[i]);
  }

  lemma FailureListed(q: Request, outcomes: seq<RuleOutcome>, id: string) returns (i: nat)
    requires Loaded(q.inputs) && AllOutcomes(q, AllActive(q), outcomes)
    requires id in q.policy.rules && !RuleHolds(q, id)
    ensures i < |outcomes| && CountsAsError(outcomes[i])
  {
    var ids := SortedKeys(q.policy.rules.Keys);
    assert id in Elements(ids);
    i :| 0 <= i < |ids| && ids[i] == id;
    OutcomeFails(q, id);
  }

  method LaterFailures(q: Request) returns (failures: seq<Failure>)
    requires Loaded(q.inputs)
    ensures forall f :: f in failures <==> RunFailure(q, f) && !InputFailure(q, f)
  {
    failures := [];
    if UsesExternal(q.policy) {
      for i := 0 to |q.externalReasons|
        invariant forall f :: f in failures <==>
                    f.policy.ExternalEvidence? && f.cause.External? && f.cause.reason in q.externalReasons[..i]
      {
        failures := failures + [Failure(ExternalEvidence, External(q.externalReasons[i]))];
      }
      assert q.externalReasons[..|q.externalReasons|] == q.externalReasons;
    }
    if q.inputs.status[Map].Available? && q.baseline.Some? && q.baseline.value.comparison.None? {
      failures := failures + [Failure(Cli(OnRegression), UnusableBaseline)];
    }
    if OnRegression in q.failOn && HasIncomparable(q) {
      failures := failures + [Failure(Cli(OnRegression), Incomparable)];
    }
  }

  method CliPolicies(q: Request) returns (names: seq<PolicyName>)
    requires Loaded(q.inputs)
    ensures forall p :: p in names <==> p.Cli? && p.policy in q.failOn && CliEvidence(q, p.policy)
  {
    names := [];
    for i := 0 to |q.failOn|
      invariant forall p :: p in names <==> p.Cli? && p.policy in q.failOn[..i] && CliEvidence(q, p.policy)
    {
      if CliEvidence(q, q.failOn[i]) {
        names := names + [Cli(q.failOn[i])];
      }
    }
    assert q.failOn[..|q.failOn|] == q.failOn;
  }

  method PoliciesOf(failures: seq<Failure>) returns (names: seq<PolicyName>)
    ensures forall p :: p in names <==> exists f :: f in failures && f.policy == p
  {
    names := [];
    for i := 0 to |failures|
      invariant forall p :: p in names <==> exists f :: f in failures[..i] && f.policy == p
    {
      names := names + [failures[i].policy];
    }
    assert failures[..|failures|] == failures;
  }

  method FailedPolicies(q: Request, failures: seq<Failure>, rules: seq<RuleOutcome>, architecture: seq<Finding>)
    returns (names: seq<PolicyName>)
    requires Loaded(q.inputs)
    requires forall f :: f in failures <==> RunFailure(q, f)
    requires FailingRules(rules) != [] <==> exists id :: id in q.policy.rules && !RuleHolds(q, id)
    requires architecture != [] <==> HasErrors(q, FromArchitecture)
    ensures forall p :: p in names <==> Fails(q, p)
  {
    names := CliPolicies(q);
    var reported := PoliciesOf(failures);
    names := names + reported;
    forall p ensures p in reported <==> Reported(q, p) {
      if p in reported {
        var f :| f in failures && f.policy == p;
        assert RunFailure(q, Failure(p, f.cause));
      }
    }
    if FailingRules(rules) != [] {
      names := names + [ConfiguredRules];
    }
    if architecture != [] {
      names := names + [ArchitecturePolicy];
    }
  }

  method Check(q: Request) returns (r: Report)
    requires Loaded(q.inputs)
    ensures r.passed <==> Passes(q)
    ensures r.passed <==> r.failedPolicies == []
    ensures Sorted(r.failedPolicies)
    ensures forall name :: name in r.failedPolicies <==> exists p :: Fails(q, p) && name == Name(p)
    ensures forall f :: f in r.inputFailures <==> RunFailure(q, f)
    ensures AllOutcomes(q, AllActive(q), r.rules)
  {
    var failures := InputFailures(q);
    var practices := Classify(q.policy, FromPractices, FindingsFrom(q, FromPractices));
    var reliability := Classify(q.policy, FromReliability, FindingsFrom(q, FromReliability));
    var architecture := Classify(q.policy, FromArchitecture, FindingsFrom(q, FromArchitecture));
    var testQuality := Classify(q.policy, FromTestQuality, FindingsFrom(q, FromTestQuality));
    var external := Classify(q.policy, FromExternal, FindingsFrom(q, FromExternal));
    var later := LaterFailures(q);
    failures := failures + later;
    var rules := EvaluateRules(q, practices.active + reliability.active + architecture.active
                                  + testQuality.active + external.active);
    SomeRuleFails(q, rules);
    ErrorsKept(q, FromArchitecture);
    var names := FailedPolicies(q, failures, rules, architecture.errors);
    var failed := SortDedup(Texts(names));
    SameTexts(names, failed);
    r := Report(failed == [], EnabledPolicies(q), failed, PartialArtifacts(q.inputs), StaleArtifacts(q.inputs),
                failures, practices, reliability, architecture, testQuality, external, rules);
  }

  lemma ErrorsKept(q: Request, source: Source)
    ensures Keep(InPart(q.policy, source, Errors), FindingsFrom(q, source)) != [] <==> HasErrors(q, source)
  {
    var kept := Keep(InPart(q.policy, source, Errors), FindingsFrom(q, source));
    if kept != [] {
      assert kept[0] in kept;
    }
  }

  lemma SameTexts(names: seq<PolicyName>, failed: seq<string>)
    requires Elements(failed) == Elements(Texts(names))
    ensures forall name :: name in failed <==> exists p :: p in names && name == Name(p)
    ensures failed == [] <==> forall p :: p !in names
  {
    var texts := Texts(names);
    forall name ensures name in failed <==> exists p :: p in names && name == Name(p) {
      assert name in failed <==> name in Elements(texts);
      if i :| 0 <= i < |names| && Name(names[i]) == name { assert texts[i] == name; }
    }
    if names != [] { assert Name(names[0]) in failed; }
    if failed != [] { assert failed[0] in failed; }
  }
}
