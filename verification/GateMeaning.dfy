/** What a passing check certifies, policy by policy, in terms of what was read and of the configuration alone
    (src/policy.rs, src/policy/inputs.rs, src/findings.rs). */
module GateMeaning {
  import opened Order
  import opened GateInputs
  import opened Waivers
  import opened Gate
  import opened GateProperties
  import Patterns

  // ----- Findings -----

  /** A disposition the project knows decides; without one the severity does. */
  predicate Blocking(f: Finding) {
    || f.disposition == Some("block")
    || (f.disposition !in {Some("warn"), Some("review"), Some("info")} && f.severity == Some("error"))
  }

  /** Some waiver in force names the finding's rule and, if it names a path, its path; evidence that was never
      gathered cannot be waived. */
  ghost predicate Excused(policy: Policy, f: Finding) {
    && f.status !in {Some("unavailable"), Some("timed-out"), Some("failed_execution"), Some("incomplete")}
    && exists w :: w in policy.waivers && f.ruleId == Some(w.ruleId)
         && w.expires.Some? && policy.today <= w.expires.value
         && (w.path.None? || PathMatches(w.path.value, f.path))
  }

  predicate InProduction(f: Finding) {
    f.scope == Some("production") && f.severity != Some("advisory")
  }

  lemma ExcusedMeans(policy: Policy, f: Finding)
    ensures ActiveWaiver(policy, f).Some? <==> Excused(policy, f)
  {
    WaivedIff(policy, f);
  }

  /** A finding is an error exactly when it blocks, is not excused and, if about reliability, is in production. */
  lemma ErrorsMean(policy: Policy, source: Source, f: Finding)
    ensures PartOf(policy, source, f) == Errors <==>
            Blocking(f) && !Excused(policy, f) && (source.FromReliability? ==> InProduction(f))
    ensures PartOf(policy, source, f) in {Errors, Warnings} <==>
            !Excused(policy, f) && (source.FromReliability? ==> InProduction(f))
  {
    ExcusedMeans(policy, f);
  }

  // ----- The artifacts -----

  ghost predicate AllEntered(q: Request, compiler: bool, current: Fingerprint, read: Artifact -> Reading) {
    Loaded(q.inputs) && forall a: Artifact :: Entered(q.inputs, compiler, current, a, read(a))
  }

  lemma AvailableDocument(q: Request, compiler: bool, current: Fingerprint, read: Artifact -> Reading, a: Artifact)
    requires AllEntered(q, compiler, current, read)
    ensures q.inputs.status[a].Available? <==> CurrentAndComplete(compiler, current, a, read(a))
    ensures q.inputs.status[a].Available? ==> a in q.inputs.documents && q.inputs.documents[a] == read(a).document
  {
    assert Entered(q.inputs, compiler, current, a, read(a));
    AvailableIff(compiler, current, a, read(a));
  }

  /** The artifacts of the measuring tools that have a schema. */
  predicate SchemaTool(a: Artifact) {
    match a
    case Hotspots | Clones | EscapeHatches | Reliability | ArchitectureRules | ApiHealth | SemanticApi | TypeHealth
       | Coverage | FunctionRisk | Correctness | TestQuality | Locality | Leverage | ModuleCohesion | Map => true
    case _ => false
  }

  lemma ToolsAreSchemaTools(a: Artifact)
    ensures a in TOOLS <==> SchemaTool(a)
  {
    if SchemaTool(a) {
      var i := match a
        case Hotspots => 0 case Clones => 1 case EscapeHatches => 2 case Reliability => 3
        case ArchitectureRules => 4 case ApiHealth => 5 case SemanticApi => 6 case TypeHealth => 7
        case Coverage => 8 case FunctionRisk => 9 case Correctness => 10 case TestQuality => 11
        case Locality => 12 case Leverage => 13 case ModuleCohesion => 14 case _ => 15;
      assert TOOLS[i] == a;
    }
  }

  // ----- What each policy demands -----

  /** A reading the gate can use, whether or not it is current. */
  predicate Usable(compiler: bool, a: Artifact, reading: Reading) {
    && reading.Read?
    && (a.ArchitectureRules? ==>
          reading.document.compilerBackend == compiler && (compiler ==> reading.document.sameRules))
  }

  /** Measured from other inputs than the present ones, or too long ago. */
  predicate OutOfDate(current: Fingerprint, a: Artifact, document: Document) {
    || (a.OperationalEvidence? && document.tooOld)
    || (&& current.complete && document.recorded.complete
        && (document.recorded != current || current.digest.None? || current.algorithm.None?))
  }

  ghost predicate NothingPartial(compiler: bool, current: Fingerprint, read: Artifact -> Reading) {
    forall a: Artifact :: Usable(compiler, a, read(a)) ==>
      !read(a).document.partial && !OutOfDate(current, a, read(a).document)
  }

  predicate TestsPassed(tests: TestSummary) {
    tests.lastRunPassed && tests.unknown == Some(0) && tests.failed == 0 && !tests.runFailed && !tests.compileFailed
  }

  predicate DeltaWithin(delta: Delta, maximum: real) {
    match delta
    case CoverageDelta(decrease) => decrease <= maximum
    case BenchmarkDelta(direction, increase) =>
      || direction in {Some("improved"), Some("within_noise"), Some("unchanged")}
      || (direction == Some("regressed") && (increase.None? || increase.value <= maximum))
  }

  ghost function Good(compiler: bool, current: Fingerprint, read: Artifact -> Reading): (good: Artifact -> bool)
    ensures forall a :: good(a) ==> read(a).Read?
  {
    a => CurrentAndComplete(compiler, current, a, read(a))
  }

  /** What an enabled policy demands; a good artifact is valid, complete and current. */
  ghost predicate Met(q: Request, compiler: bool, current: Fingerprint, read: Artifact -> Reading, p: FailPolicy)
  {
    var good := Good(compiler, current, read);
    match p
    case OnPartial => (forall a :: SchemaTool(a) ==> good(a)) && NothingPartial(compiler, current, read)
    case OnTestFailure => good(Correctness) && TestsPassed(read(Correctness).document.tests)
    case OnPracticeFailure =>
      good(RustPractices) && forall f :: f in read(RustPractices).document.findings && Blocking(f) ==> Excused(q.policy, f)
    case OnReliabilityFinding =>
      good(Reliability) && forall f :: f in read(Reliability).document.findings && Blocking(f) && InProduction(f) ==>
        Excused(q.policy, f)
    case OnOperationalFailure =>
      good(OperationalEvidence) && "breached" !in read(OperationalEvidence).document.operations
    case OnThreshold =>
      good(Map) && forall s :: s in read(Map).document.scores ==> s.Some? && s.value <= q.maxScore
    case OnRegression =>
      && good(Map) && None !in read(Map).document.scores
      && q.baseline.Some? && q.baseline.value.comparison.Some?
      && (forall a :: a in {Coverage, Performance} ==>
            good(a) || (read(a).Absent? && a !in q.baseline.value.files))
      && (forall d :: d in q.baseline.value.comparison.value.scores ==> d <= q.maxRegression)
      && (forall d :: d in q.baseline.value.comparison.value.evidence ==> DeltaWithin(d, q.maxRegression))
  }

  lemma ReportedMeans(q: Request, p: FailPolicy)
    requires Loaded(q.inputs) && p in q.failOn
    ensures Reported(q, Cli(p)) <==>
            || (exists cause :: PolicyFailure(q, p, cause))
            || (p.OnRegression? && q.inputs.status[Map].Available? && q.baseline.Some? && q.baseline.value.comparison.None?)
            || (p.OnRegression? && HasIncomparable(q))
  {
    forall cause ensures RunFailure(q, Failure(Cli(p), cause)) <==>
      || PolicyFailure(q, p, cause)
      || (p.OnRegression? && cause.UnusableBaseline? && q.inputs.status[Map].Available? && q.baseline.Some?
          && q.baseline.value.comparison.None?)
      || (p.OnRegression? && cause.Incomparable? && HasIncomparable(q)) {
    }
    if p.OnRegression? && HasIncomparable(q) { assert RunFailure(q, Failure(Cli(p), Incomparable)); }
    if p.OnRegression? && q.inputs.status[Map].Available? && q.baseline.Some? && q.baseline.value.comparison.None? {
      assert RunFailure(q, Failure(Cli(p), UnusableBaseline));
    }
  }

  /** The causes a policy can report, one kind at a time. */
  lemma CausesMean(q: Request, p: FailPolicy)
    requires Loaded(q.inputs)
    ensures (exists cause :: PolicyFailure(q, p, cause)) <==>
            || (exists a :: (a in RequiredFiles(p) || (p.OnRegression? && Auxiliary(q, a))) && !q.inputs.status[a].Available?)
            || (p.OnRegression? && q.baseline.None?)
            || (p.OnTestFailure? && Correctness in q.inputs.documents && !AllTestsKnown(q.inputs.documents[Correctness]))
            || ((p.OnThreshold? || p.OnRegression?) && Map in q.inputs.documents && UnknownScore(q.inputs.documents[Map]))
  {
    if a :| (a in RequiredFiles(p) || (p.OnRegression? && Auxiliary(q, a))) && !q.inputs.status[a].Available? {
      assert PolicyFailure(q, p, NotAvailable(a, q.inputs.status[a]));
    }
    if p.OnRegression? && q.baseline.None? { assert PolicyFailure(q, p, NoBaseline); }
    if p.OnTestFailure? && Correctness in q.inputs.documents && !AllTestsKnown(q.inputs.documents[Correctness]) {
      assert PolicyFailure(q, p, UnknownTests);
    }
    if (p.OnThreshold? || p.OnRegression?) && Map in q.inputs.documents && UnknownScore(q.inputs.documents[Map]) {
      assert PolicyFailure(q, p, UnknownScores);
    }
  }

  lemma FindingsMet(q: Request, source: Source, a: Artifact)
    requires Loaded(q.inputs) && !source.FromExternal? && ArtifactOf(source) == a && a in q.inputs.documents
    ensures !HasErrors(q, source) <==>
            forall f :: f in q.inputs.documents[a].findings && Blocking(f) && (source.FromReliability? ==> InProduction(f)) ==>
              Excused(q.policy, f)
  {
    forall f ensures PartOf(q.policy, source, f) == Errors <==>
                     Blocking(f) && !Excused(q.policy, f) && (source.FromReliability? ==> InProduction(f)) {
      ErrorsMean(q.policy, source, f);
    }
  }

  lemma ToolsReported(q: Request)
    requires Loaded(q.inputs) && OnPartial in q.failOn
    ensures Reported(q, Cli(OnPartial)) <==> exists a :: SchemaTool(a) && !q.inputs.status[a].Available?
  {
    ReportedMeans(q, OnPartial);
    CausesMean(q, OnPartial);
    forall a ensures a in RequiredFiles(OnPartial) <==> SchemaTool(a) { ToolsAreSchemaTools(a); }
  }

  lemma PartialMet(q: Request, compiler: bool, current: Fingerprint, read: Artifact -> Reading)
    requires AllEntered(q, compiler, current, read) && OnPartial in q.failOn
    ensures !Fails(q, Cli(OnPartial)) <==>
            (forall a :: SchemaTool(a) ==> q.inputs.status[a].Available?) && NothingPartial(compiler, current, read)
  {
    ToolsReported(q);
    if forall a :: SchemaTool(a) ==> q.inputs.status[a].Available? {
      PartialMeans(q.inputs);
      forall a | a in TOOLS ensures a in q.inputs.documents { ToolsAreSchemaTools(a); }
      PartialDocuments(q, compiler, current, read);
    }
  }

  lemma DocumentStateMeans(a: Artifact, document: Document, current: Fingerprint)
    ensures DocumentState(a, document, current).Stale? <==> OutOfDate(current, a, document)
    ensures DocumentState(a, document, current) in {Stale, Partial, Available}
  {
  }

  /** What the loaded state of an artifact says about its reading. */
  lemma StateMeans(q: Request, compiler: bool, current: Fingerprint, read: Artifact -> Reading, a: Artifact)
    requires AllEntered(q, compiler, current, read)
    ensures a in q.inputs.documents <==> Usable(compiler, a, read(a))
    ensures a in q.inputs.documents ==> q.inputs.documents[a] == read(a).document
    ensures q.inputs.status[a].Stale? <==> Usable(compiler, a, read(a)) && OutOfDate(current, a, read(a).document)
    ensures q.inputs.status[a].Missing? <==> read(a).Absent?
    ensures q.inputs.status[a].Unreadable? <==> read(a).IoError? || read(a).Malformed?
    ensures q.inputs.status[a].Incompatible? <==> read(a).Invalid? || (read(a).Read? && !Usable(compiler, a, read(a)))
  {
    assert Entered(q.inputs, compiler, current, a, read(a));
    if read(a).Read? {
      DocumentStateMeans(a, read(a).document, current);
    }
  }

  lemma PartialDocuments(q: Request, compiler: bool, current: Fingerprint, read: Artifact -> Reading)
    requires AllEntered(q, compiler, current, read)
    ensures NothingPartial(compiler, current, read) <==>
            && (forall a: Artifact :: a in q.inputs.status ==> !q.inputs.status[a].Stale?)
            && (forall a: Artifact :: a in q.inputs.documents ==> !q.inputs.documents[a].partial)
  {
    forall a: Artifact
      ensures a in q.inputs.documents <==> Usable(compiler, a, read(a))
      ensures a in q.inputs.documents ==> q.inputs.documents[a] == read(a).document
      ensures q.inputs.status[a].Stale? <==> Usable(compiler, a, read(a)) && OutOfDate(current, a, read(a).document)
    {
      StateMeans(q, compiler, current, read, a);
    }
  }

  lemma PartialMeans(inputs: Inputs)
    requires Loaded(inputs)
    ensures PartialArtifacts(inputs) == {} <==>
            && (forall a: Artifact :: a in inputs.status ==> !inputs.status[a].Stale?)
            && (forall a: Artifact :: a in inputs.documents ==> !inputs.documents[a].partial)
            && (forall a: Artifact :: a in TOOLS ==> a in inputs.documents)
  {
    forall a: Artifact ensures a in PartialArtifacts(inputs) <==>
      || (a in inputs.documents && inputs.documents[a].partial)
      || (a in inputs.status && inputs.status[a].Stale?)
      || (a in TOOLS && a !in inputs.documents) {
    }
    if PartialArtifacts(inputs) != {} {
      var a :| a in PartialArtifacts(inputs);
    }
  }

  lemma ThresholdMet(q: Request)
    requires Loaded(q.inputs) && OnThreshold in q.failOn
    ensures !Fails(q, Cli(OnThreshold)) <==>
            && q.inputs.status[Map].Available?
            && forall s :: s in q.inputs.documents[Map].scores ==> s.Some? && s.value <= q.maxScore
  {
    ReportedMeans(q, OnThreshold);
    CausesMean(q, OnThreshold);
    assert Map in RequiredFiles(OnThreshold);
  }

  lemma SimpleMet(q: Request, p: FailPolicy, a: Artifact)
    requires Loaded(q.inputs) && p in q.failOn
    requires (p, a) in {(OnTestFailure, Correctness), (OnPracticeFailure, RustPractices),
                        (OnReliabilityFinding, Reliability), (OnOperationalFailure, OperationalEvidence)}
    ensures !Fails(q, Cli(p)) <==>
            && q.inputs.status[a].Available? && !CliEvidence(q, p)
            && (p.OnTestFailure? ==> AllTestsKnown(q.inputs.documents[a]))
  {
    ReportedMeans(q, p);
    CausesMean(q, p);
    assert RequiredFiles(p) == [a];
  }

  lemma RegressionMet(q: Request)
    requires Loaded(q.inputs) && OnRegression in q.failOn
    ensures !Fails(q, Cli(OnRegression)) <==>
            && q.inputs.status[Map].Available? && None !in q.inputs.documents[Map].scores
            && q.baseline.Some? && q.baseline.value.comparison.Some?
            && (forall a :: a in {Coverage, Performance} ==>
                  q.inputs.status[a].Available? || (q.inputs.status[a].Missing? && a !in q.baseline.value.files))
            && (forall d :: d in q.baseline.value.comparison.value.scores ==> d <= q.maxRegression)
            && (forall d :: d in q.baseline.value.comparison.value.evidence ==> DeltaWithin(d, q.maxRegression))
  {
    ReportedMeans(q, OnRegression);
    CausesMean(q, OnRegression);
    assert RequiredFiles(OnRegression) == [Map];
    forall d ensures DeltaWithin(d, q.maxRegression) <==> !DeltaRegressed(d, q.maxRegression) && !DeltaIncomparable(d) {
    }
  }

  /** Good artifacts are the available ones, and what was read of them is what the gate looks at. */
  ghost predicate GoodAvailable(q: Request, good: Artifact -> bool, read: Artifact -> Reading) {
    && Loaded(q.inputs)
    && forall a: Artifact ::
         && (good(a) <==> q.inputs.status[a].Available?)
         && (good(a) ==> read(a).Read? && q.inputs.documents[a] == read(a).document)
         && (q.inputs.status[a].Missing? <==> read(a).Absent?)
  }

  lemma ArtifactsGood(q: Request, compiler: bool, current: Fingerprint, read: Artifact -> Reading)
    requires AllEntered(q, compiler, current, read)
    ensures GoodAvailable(q, Good(compiler, current, read), read)
  {
    forall a: Artifact
      ensures Good(compiler, current, read)(a) <==> q.inputs.status[a].Available?
      ensures q.inputs.status[a].Available? ==> a in q.inputs.documents && q.inputs.documents[a] == read(a).document
      ensures q.inputs.status[a].Missing? <==> read(a).Absent?
    {
      AvailableDocument(q, compiler, current, read, a);
      StateMeans(q, compiler, current, read, a);
    }
  }

  /** An enabled policy does not fail exactly when what it demands is met. */
  lemma MetIff(q: Request, compiler: bool, current: Fingerprint, read: Artifact -> Reading, p: FailPolicy)
    requires AllEntered(q, compiler, current, read) && p in q.failOn
    ensures !Fails(q, Cli(p)) <==> Met(q, compiler, current, read, p)
  {
    var good := Good(compiler, current, read);
    ArtifactsGood(q, compiler, current, read);
    match p
    case OnPartial => PartialMet(q, compiler, current, read);
    case OnTestFailure => SimpleMet(q, p, Correctness);
    case OnPracticeFailure =>
      SimpleMet(q, p, RustPractices);
      if good(RustPractices) { FindingsMet(q, FromPractices, RustPractices); }
    case OnReliabilityFinding =>
      SimpleMet(q, p, Reliability);
      if good(Reliability) { FindingsMet(q, FromReliability, Reliability); }
    case OnOperationalFailure => SimpleMet(q, p, OperationalEvidence);
    case OnThreshold => ThresholdMet(q);
    case OnRegression => RegressionMet(q);
  }

  // ----- Rules with a maximum -----

  /** The findings of an artifact, as far as the gate can use it. */
  function FindingsIn(compiler: bool, read: Artifact -> Reading, a: Artifact): seq<Finding> {
    if Usable(compiler, a, read(a)) then read(a).document.findings else []
  }

  /** A finding that counts against a rule: about it, not excused, and neither its path nor its package excluded. */
  ghost predicate Counts(q: Request, id: string, rule: PolicyRule, f: Finding) {
    && f.ruleId == Some(id) && !Excused(q.policy, f)
    && (forall pattern :: pattern in rule.excludePaths ==> !PathMatches(pattern, f.path))
    && (forall package :: package in rule.excludePackages ==> f.packageName != Some(package))
  }

  ghost function Counting(q: Request, id: string, rule: PolicyRule): Finding -> bool {
    f => Counts(q, id, rule, f)
  }

  ghost function CountingInProduction(q: Request, id: string, rule: PolicyRule): Finding -> bool {
    f => Counts(q, id, rule, f) && InProduction(f)
  }

  ghost function Observed(q: Request, compiler: bool, read: Artifact -> Reading, id: string, rule: PolicyRule): nat {
    |Keep(Counting(q, id, rule), FindingsIn(compiler, read, RustPractices))|
    + |Keep(CountingInProduction(q, id, rule), FindingsIn(compiler, read, Reliability))|
    + |Keep(Counting(q, id, rule), FindingsIn(compiler, read, ArchitectureRules))|
    + |Keep(Counting(q, id, rule), FindingsIn(compiler, read, TestQuality))|
    + |Keep(Counting(q, id, rule), q.external)|
  }

  /** The artifact that holds the evidence on a rule: the one of its family, or that of the architecture family
      for an architecture check that is switched on. An architecture check never shares its id with another rule. */
  ghost predicate HoldsEvidence(q: Request, id: string, a: Artifact) {
    && q.contracts.Some?
    && var contracts := q.contracts.value;
       || (&& id in contracts.rules && (forall r :: r in q.architecture ==> r.id != id)
           && contracts.rules[id] in contracts.families && contracts.families[contracts.rules[id]] == a)
       || (&& id !in contracts.rules && "architecture" in contracts.families && contracts.families["architecture"] == a
           && exists i :: 0 <= i < |q.architecture| && q.architecture[i].id == id && !q.architecture[i].level.Off?
                          && forall j :: 0 <= j < i ==> q.architecture[j].id != id)
  }

  ghost predicate RuleMet(q: Request, compiler: bool, current: Fingerprint, read: Artifact -> Reading, id: string)
    requires id in q.policy.rules
  {
    exists a ::
      && HoldsEvidence(q, id, a) && CurrentAndComplete(compiler, current, a, read(a))
      && (if id == "rust.testing.required-owner" then !read(a).document.ownersUnavailable
          else a.RustPractices? ==> CheckRan(read(a).document.checks, id))
      && Observed(q, compiler, read, id, q.policy.rules[id]) <= q.policy.rules[id].max
  }

  /** The check was executed, every time it is listed, to a result. */
  ghost predicate CheckRan(checks: seq<Check>, id: string) {
    && (exists status :: Check(Some(id), status) in checks)
    && (forall status :: Check(Some(id), status) in checks ==> status in {Some("passed"), Some("failed")})
  }

  lemma RanMeans(checks: seq<Check>, id: string)
    ensures CheckObserved(checks, id) <==> CheckRan(checks, id)
  {
    forall c | c in checks && c.ruleId == Some(id) ensures c == Check(Some(id), c.status) {
    }
  }

  lemma {:induction false} LevelFound(rules: seq<ArchitectureRule>, id: string)
    ensures ArchitectureLevel(rules, id).None? <==> forall r :: r in rules ==> r.id != id
    ensures ArchitectureLevel(rules, id).Some? ==>
              exists i :: 0 <= i < |rules| && rules[i].id == id && rules[i].level == ArchitectureLevel(rules, id).value
                          && forall j :: 0 <= j < i ==> rules[j].id != id
  {
    if rules != [] {
      LevelFound(rules[1..], id);
      assert rules == [rules[0]] + rules[1..];
      if rules[0].id != id && ArchitectureLevel(rules, id).Some? {
        var i :| 0 <= i < |rules[1..]| && rules[1..][i].id == id && rules[1..][i].level == ArchitectureLevel(rules, id).value
                 && forall j :: 0 <= j < i ==> rules[1..][j].id != id;
        assert rules[i + 1].id == id;
        assert forall j :: 0 < j < i + 1 ==> rules[j] == rules[1..][j - 1];
      }
    }
  }

  lemma EvidenceMeans(q: Request, id: string, a: Artifact)
    ensures Evidence(q, id) == Some(a) <==> HoldsEvidence(q, id, a)
  {
    LevelFound(q.architecture, id);
  }

  lemma CountsMean(q: Request, source: Source, id: string, rule: PolicyRule, f: Finding)
    ensures CountedBy(q, source, id, rule)(f) <==> Counts(q, id, rule, f) && (source.FromReliability? ==> InProduction(f))
  {
    ErrorsMean(q.policy, source, f);
  }

  lemma {:induction false} KeepSame(p: Finding -> bool, r: Finding -> bool, xs: seq<Finding>)
    requires forall x :: p(x) <==> r(x)
    ensures Keep(p, xs) == Keep(r, xs)
  {
    if xs != [] { KeepSame(p, r, xs[..|xs| - 1]); }
  }

  lemma CountMeans(q: Request, source: Source, id: string, rule: PolicyRule, findings: seq<Finding>)
    requires FindingsFrom(q, source) == findings
    ensures Count(q, source, id, rule) ==
            |Keep(if source.FromReliability? then CountingInProduction(q, id, rule) else Counting(q, id, rule), findings)|
  {
    forall f ensures CountedBy(q, source, id, rule)(f) <==>
                     Counts(q, id, rule, f) && (source.FromReliability? ==> InProduction(f)) {
      CountsMean(q, source, id, rule, f);
    }
    KeepSame(CountedBy(q, source, id, rule),
             if source.FromReliability? then CountingInProduction(q, id, rule) else Counting(q, id, rule), findings);
  }

  lemma FindingsLoaded(q: Request, compiler: bool, current: Fingerprint, read: Artifact -> Reading, source: Source,
                       a: Artifact)
    requires AllEntered(q, compiler, current, read) && !source.FromExternal? && ArtifactOf(source) == a
    ensures FindingsFrom(q, source) == FindingsIn(compiler, read, a)
  {
    StateMeans(q, compiler, current, read, a);
  }

  lemma ObservedMeans(q: Request, compiler: bool, current: Fingerprint, read: Artifact -> Reading, id: string,
                      rule: PolicyRule)
    requires AllEntered(q, compiler, current, read)
    ensures CountAll(q, id, rule) == Observed(q, compiler, read, id, rule)
  {
    FindingsLoaded(q, compiler, current, read, FromPractices, RustPractices);
    FindingsLoaded(q, compiler, current, read, FromReliability, Reliability);
    FindingsLoaded(q, compiler, current, read, FromArchitecture, ArchitectureRules);
    FindingsLoaded(q, compiler, current, read, FromTestQuality, TestQuality);
    CountMeans(q, FromPractices, id, rule, FindingsIn(compiler, read, RustPractices));
    CountMeans(q, FromReliability, id, rule, FindingsIn(compiler, read, Reliability));
    CountMeans(q, FromArchitecture, id, rule, FindingsIn(compiler, read, ArchitectureRules));
    CountMeans(q, FromTestQuality, id, rule, FindingsIn(compiler, read, TestQuality));
    CountMeans(q, FromExternal, id, rule, q.external);
  }

  lemma EvaluatedIff(q: Request, id: string)
    requires Loaded(q.inputs)
    ensures RuleUnavailability(q, id).None? <==>
            && Evidence(q, id).Some?
            && var a := Evidence(q, id).value;
               && q.inputs.status[a].Available?
               && (if id == OWNER_RULE then !q.inputs.documents[a].ownersUnavailable
                   else a.RustPractices? ==> CheckObserved(q.inputs.documents[a].checks, id))
  {
  }

  lemma RuleMeans(q: Request, compiler: bool, current: Fingerprint, read: Artifact -> Reading, id: string)
    requires AllEntered(q, compiler, current, read) && id in q.policy.rules
    ensures RuleHolds(q, id) <==> (q.policy.rules[id].level.Error? ==> RuleMet(q, compiler, current, read, id))
  {
    ObservedMeans(q, compiler, current, read, id, q.policy.rules[id]);
    EvaluatedIff(q, id);
    AvailabilityMeans(q, compiler, current, read, id);
  }

  lemma AvailabilityMeans(q: Request, compiler: bool, current: Fingerprint, read: Artifact -> Reading, id: string)
    requires AllEntered(q, compiler, current, read)
    ensures RuleUnavailability(q, id).None? <==>
            exists a ::
              && HoldsEvidence(q, id, a) && CurrentAndComplete(compiler, current, a, read(a))
              && (if id == "rust.testing.required-owner" then !read(a).document.ownersUnavailable
                  else a.RustPractices? ==> CheckRan(read(a).document.checks, id))
  {
    EvaluatedIff(q, id);
    forall a ensures Evidence(q, id) == Some(a) <==> HoldsEvidence(q, id, a) { EvidenceMeans(q, id, a); }
    if Evidence(q, id).Some? {
      var a := Evidence(q, id).value;
      AvailableDocument(q, compiler, current, read, a);
      if q.inputs.status[a].Available? {
        RanMeans(q.inputs.documents[a].checks, id);
      }
    }
  }

  /** A rule's line in the report, when `n` findings count out of `m` about the rule. */
  predicate Reports(o: RuleOutcome, rule: PolicyRule, n: nat, m: nat, available: bool) {
    && o.observedFindings == n && o.excluded + n == m
    && (o.status.Disabled? <==> rule.level.Off?)
    && (o.status.NotEvaluated? <==> !rule.level.Off? && !available)
    && (o.status.Passed? ==> n <= rule.max && o.observed == Some(n) && o.excess == Some(0))
    && (o.status.Exceeded? ==> n > rule.max && o.observed == Some(n) && o.excess == Some(n - rule.max))
  }

  lemma OutcomeReports(id: string, rule: PolicyRule, active: seq<Finding>, unavailable: Option<Abstention>)
    ensures Reports(EvaluateRule(id, rule, active, unavailable), rule, |Keep(Included(rule), Keep(About(id), active))|,
                    |Keep(About(id), active)|, unavailable.None?)
  {
    KeepFewer(Included(rule), Keep(About(id), active));
  }

  /** What the report says about a rule: how many findings count, how many are excluded, and how it did. */
  lemma OutcomeMeans(q: Request, compiler: bool, current: Fingerprint, read: Artifact -> Reading, id: string)
    requires AllEntered(q, compiler, current, read) && id in q.policy.rules
    ensures Reports(OutcomeOf(q, AllActive(q), id), q.policy.rules[id],
                    Observed(q, compiler, read, id, q.policy.rules[id]), |Keep(About(id), AllActive(q))|,
                    RuleUnavailability(q, id).None?)
  {
    var rule := q.policy.rules[id];
    OutcomeReports(id, rule, AllActive(q), RuleUnavailability(q, id));
    RuleCounts(q, id, rule);
    ObservedMeans(q, compiler, current, read, id, rule);
  }

  lemma {:induction false} KeepFewer(p: Finding -> bool, xs: seq<Finding>)
    ensures |Keep(p, xs)| <= |xs|
  {
    if xs != [] { KeepFewer(p, xs[..|xs| - 1]); }
  }

  // ----- The whole verdict -----

  ghost predicate ArchitectureMet(q: Request, compiler: bool, current: Fingerprint, read: Artifact -> Reading) {
    && ((exists rule :: rule in q.architecture && rule.level.Error?) ==>
          CurrentAndComplete(compiler, current, ArchitectureRules, read(ArchitectureRules)))
    && forall f :: f in FindingsIn(compiler, read, ArchitectureRules) && Blocking(f) ==> Excused(q.policy, f)
  }

  /** Adapters that some rule in force names must have had nothing to complain about. */
  predicate ExternalMet(q: Request) {
    (exists id :: id in q.policy.rules && "external." <= id && !q.policy.rules[id].level.Off?) ==> q.externalReasons == []
  }

  /** A baseline that is compared at all must be comparable. */
  ghost predicate BaselineMet(q: Request, compiler: bool, current: Fingerprint, read: Artifact -> Reading) {
    CurrentAndComplete(compiler, current, Map, read(Map)) && q.baseline.Some? ==> q.baseline.value.comparison.Some?
  }

  /** The check passes exactly when every enabled policy and every error-level rule is met on what was read. */
  lemma PassesMeans(q: Request, compiler: bool, current: Fingerprint, read: Artifact -> Reading)
    requires AllEntered(q, compiler, current, read)
    ensures Passes(q) <==>
              && (forall p :: p in q.failOn ==> Met(q, compiler, current, read, p))
              && (forall id :: id in q.policy.rules && q.policy.rules[id].level.Error? ==>
                    RuleMet(q, compiler, current, read, id))
              && ArchitectureMet(q, compiler, current, read) && ExternalMet(q)
              && BaselineMet(q, compiler, current, read)
  {
    forall p | p in q.failOn ensures !Fails(q, Cli(p)) <==> Met(q, compiler, current, read, p) {
      MetIff(q, compiler, current, read, p);
    }
    forall id | id in q.policy.rules
      ensures RuleHolds(q, id) <==> (q.policy.rules[id].level.Error? ==> RuleMet(q, compiler, current, read, id))
    {
      RuleMeans(q, compiler, current, read, id);
    }
    ArchitectureMeans(q, compiler, current, read);
    ExternalMeans(q);
    OtherPoliciesMean(q, compiler, current, read);
    assert Passes(q) <==>
      && (forall p :: !Fails(q, Cli(p))) && !Fails(q, ConfiguredRules)
      && !Fails(q, ArchitecturePolicy) && !Fails(q, ExternalEvidence);
  }

  lemma OtherPoliciesMean(q: Request, compiler: bool, current: Fingerprint, read: Artifact -> Reading)
    requires AllEntered(q, compiler, current, read)
    ensures !Fails(q, ConfiguredRules) <==> forall id :: id in q.policy.rules ==> RuleHolds(q, id)
    ensures (forall p :: p !in q.failOn ==> !Fails(q, Cli(p))) <==>
            (OnRegression !in q.failOn ==> BaselineMet(q, compiler, current, read))
    ensures OnRegression in q.failOn && !Fails(q, Cli(OnRegression)) ==> BaselineMet(q, compiler, current, read)
  {
    AvailableDocument(q, compiler, current, read, Map);
    var unusable := Failure(Cli(OnRegression), UnusableBaseline);
    if q.inputs.status[Map].Available? && q.baseline.Some? && q.baseline.value.comparison.None? {
      assert RunFailure(q, unusable);
    }
    forall p, cause | p !in q.failOn && RunFailure(q, Failure(Cli(p), cause)) ensures Failure(Cli(p), cause) == unusable {
    }
  }

  lemma ArchitectureMeans(q: Request, compiler: bool, current: Fingerprint, read: Artifact -> Reading)
    requires AllEntered(q, compiler, current, read)
    ensures !Fails(q, ArchitecturePolicy) <==> ArchitectureMet(q, compiler, current, read)
  {
    AvailableDocument(q, compiler, current, read, ArchitectureRules);
    FindingsLoaded(q, compiler, current, read, FromArchitecture, ArchitectureRules);
    forall f ensures PartOf(q.policy, FromArchitecture, f) == Errors <==> Blocking(f) && !Excused(q.policy, f) {
      ErrorsMean(q.policy, FromArchitecture, f);
    }
    var failure := Failure(ArchitecturePolicy, NotAvailable(ArchitectureRules, q.inputs.status[ArchitectureRules]));
    if EnforcesArchitecture(q) && !q.inputs.status[ArchitectureRules].Available? {
      assert RunFailure(q, failure);
    }
    forall cause ensures RunFailure(q, Failure(ArchitecturePolicy, cause)) ==> EnforcesArchitecture(q) {}
  }

  lemma ExternalMeans(q: Request)
    requires Loaded(q.inputs)
    ensures !Fails(q, ExternalEvidence) <==> ExternalMet(q)
  {
    if UsesExternal(q.policy) && q.externalReasons != [] {
      assert q.externalReasons[0] in q.externalReasons;
      assert RunFailure(q, Failure(ExternalEvidence, External(q.externalReasons[0])));
    }
  }
}
