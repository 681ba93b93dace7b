/** What the policy gate reads: one state per artifact, and the document itself when it is usable
    (src/policy/inputs.rs, src/fingerprint.rs). */
module GateInputs {
  import opened Order

  datatype Artifact =
    | Hotspots | Clones | EscapeHatches | Reliability | ArchitectureRules | ApiHealth | SemanticApi | TypeHealth
    | Coverage | FunctionRisk | Correctness | TestQuality | Locality | Leverage | ModuleCohesion | Map
    | RustPractices | SourceExpansion | CompilerInventory
    | Performance | RepositoryOutcomes | OperationalEvidence

  const TOOLS: seq<Artifact> := [
    Hotspots, Clones, EscapeHatches, Reliability, ArchitectureRules, ApiHealth, SemanticApi, TypeHealth,
    Coverage, FunctionRisk, Correctness, TestQuality, Locality, Leverage, ModuleCohesion, Map
  ]

  const INPUTS: seq<Artifact> := TOOLS + [
    RustPractices, SourceExpansion, CompilerInventory, Performance, RepositoryOutcomes, OperationalEvidence
  ]

  datatype Fingerprint = Fingerprint(complete: bool, digest: Option<string>, algorithm: Option<string>)

  datatype Finding = Finding(
    ruleId: Option<string>, path: Option<string>, packageName: Option<string>, status: Option<string>,
    disposition: Option<string>, severity: Option<string>, scope: Option<string>)

  datatype TestSummary = TestSummary(
    failed: nat, runFailed: bool, compileFailed: bool, lastRunPassed: bool, unknown: Option<nat>)

  datatype Check = Check(ruleId: Option<string>, status: Option<string>)

  /** The fields the gate looks at, whichever artifact holds them. */
  datatype Document = Document(
    recorded: Fingerprint, confident: bool, partial: bool, tooOld: bool, compilerBackend: bool, sameRules: bool,
    findings: seq<Finding>, tests: TestSummary, scores: seq<Option<real>>, operations: seq<string>,
    checks: seq<Check>, ownersUnavailable: bool)

  /** What reading an artifact file came to. */
  datatype Reading = Absent | IoError | Malformed | Invalid | Read(document: Document)

  datatype InputStatus = Missing | Unreadable | Incompatible | Stale | Partial | Available

  datatype Opened = Opened(document: Document) | Refused(status: InputStatus)

  function ReadDocument(compiler: bool, artifact: Artifact, reading: Reading): Opened {
    match reading
    case Absent => Refused(Missing)
    case IoError => Refused(Unreadable)
    case Malformed => Refused(Unreadable)
    case Invalid => Refused(Incompatible)
    case Read(document) =>
      if artifact.ArchitectureRules? && (compiler != document.compilerBackend || (compiler && !document.sameRules))
      then Refused(Incompatible)
      else Opened(document)
  }

  datatype Freshness = Current | Outdated | Incomplete

  function FreshnessOf(recorded: Fingerprint, current: Fingerprint): Freshness {
    if !current.complete || !recorded.complete then Incomplete
    else if current.digest.None? || current.algorithm.None?
            || recorded.digest != current.digest || recorded.algorithm != current.algorithm then Outdated
    else Current
  }

  function DocumentState(artifact: Artifact, document: Document, current: Fingerprint): InputStatus {
    if artifact.OperationalEvidence? && document.tooOld then Stale
    else
      match FreshnessOf(document.recorded, current)
      case Outdated => Stale
      case Incomplete => Partial
      case Current => if document.confident then Available else Partial
  }

  function StateOf(compiler: bool, current: Fingerprint, artifact: Artifact, reading: Reading): InputStatus {
    match ReadDocument(compiler, artifact, reading)
    case Opened(document) => DocumentState(artifact, document, current)
    case Refused(status) => status
  }

  datatype Inputs = Inputs(documents: map<Artifact, Document>, status: map<Artifact, InputStatus>)

  /** An input is available exactly when its document is valid, was measured from the inputs as they
      are now, both fingerprints are complete and the measurement itself is complete. */
  ghost predicate CurrentAndComplete(compiler: bool, current: Fingerprint, artifact: Artifact, reading: Reading) {
    && reading.Read?
    && current.complete && reading.document.recorded.complete
    && current.digest.Some? && current.algorithm.Some?
    && reading.document.recorded == current
    && reading.document.confident
    && (artifact.OperationalEvidence? ==> !reading.document.tooOld)
    && (artifact.ArchitectureRules? ==>
          && reading.document.compilerBackend == compiler
          && (compiler ==> reading.document.sameRules))
  }

  /** Every lookup the gate makes is defined, and an available input has a document. */
  predicate Loaded(inputs: Inputs) {
    && (forall a: Artifact :: a in inputs.status)
    && (forall a: Artifact :: inputs.status[a].Available? ==> a in inputs.documents)
  }

  lemma EveryArtifactIsInput(a: Artifact)
    ensures a in INPUTS
  {
    var i := match a
      case Hotspots => 0 case Clones => 1 case EscapeHatches => 2 case Reliability => 3
      case ArchitectureRules => 4 case ApiHealth => 5 case SemanticApi => 6 case TypeHealth => 7
      case Coverage => 8 case FunctionRisk => 9 case Correctness => 10 case TestQuality => 11
      case Locality => 12 case Leverage => 13 case ModuleCohesion => 14 case Map => 15
      case RustPractices => 16 case SourceExpansion => 17 case CompilerInventory => 18
      case Performance => 19 case RepositoryOutcomes => 20 case OperationalEvidence => 21;
    assert INPUTS[i] == a;
  }

  lemma AvailableIff(compiler: bool, current: Fingerprint, artifact: Artifact, reading: Reading)
    ensures StateOf(compiler, current, artifact, reading).Available? <==>
            CurrentAndComplete(compiler, current, artifact, reading)
    ensures StateOf(compiler, current, artifact, reading).Available? ==>
            ReadDocument(compiler, artifact, reading).Opened?
  {
  }

  /** The entries of one artifact are those its reading calls for. */
  ghost predicate Entered(inputs: Inputs, compiler: bool, current: Fingerprint, artifact: Artifact, reading: Reading) {
    && artifact in inputs.status
    && inputs.status[artifact] == StateOf(compiler, current, artifact, reading)
    && (artifact in inputs.documents <==> ReadDocument(compiler, artifact, reading).Opened?)
    && (artifact in inputs.documents ==> reading == Read(inputs.documents[artifact]))
  }

  method Load(compiler: bool, current: Fingerprint, read: Artifact -> Reading) returns (inputs: Inputs)
    ensures Loaded(inputs)
    ensures forall a: Artifact :: Entered(inputs, compiler, current, a, read(a))
    ensures forall a: Artifact :: inputs.status[a].Available? <==> CurrentAndComplete(compiler, current, a, read(a))
  {
    inputs := Inputs(map[], map[]);
    for i := 0 to |INPUTS|
      invariant forall a: Artifact :: a in INPUTS[..i] ==> a in inputs.status
      invariant forall a: Artifact :: a in inputs.documents ==> a in inputs.status
      invariant forall a: Artifact :: a in inputs.status ==> Entered(inputs, compiler, current, a, read(a))
    {
      var artifact := INPUTS[i];
      match ReadDocument(compiler, artifact, read(artifact))
      case Opened(document) =>
        inputs := inputs.(documents := inputs.documents[artifact := document],
                          status := inputs.status[artifact := DocumentState(artifact, document, current)]);
      case Refused(status) =>
        inputs := inputs.(status := inputs.status[artifact := status]);
    }
    assert INPUTS[..|INPUTS|] == INPUTS;
    forall a: Artifact
      ensures Entered(inputs, compiler, current, a, read(a))
      ensures inputs.status[a].Available? <==> CurrentAndComplete(compiler, current, a, read(a))
      ensures inputs.status[a].Available? ==> a in inputs.documents
    {
      EveryArtifactIsInput(a);
      AvailableIff(compiler, current, a, read(a));
    }
  }
}
