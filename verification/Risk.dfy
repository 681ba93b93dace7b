/** Module risk scores: capped, rounded, explained (src/risk_model.rs, src/util.rs). Floating point is
    modelled by reals. */
module Risk {
  import opened Order

  // ----- Rounding -----

  /** Half away from zero. */
  function Round(x: real): int {
    if x >= 0.0 then (x + 0.5).Floor else -((-x + 0.5).Floor)
  }

  function Cents(k: int): real {
    k as real / 100.0
  }

  function Round2(x: real): real {
    Cents(Round(x * 100.0))
  }

  ghost predicate Hundredths(x: real) {
    exists k: int :: x == Cents(k)
  }

  lemma FloorMonotone(x: real, y: real)
    requires x <= y
    ensures x.Floor <= y.Floor
  {
    assert x.Floor as real <= x && y < y.Floor as real + 1.0;
  }

  lemma NearestMonotone(x: real, y: real)
    requires x <= y
    ensures Round(x) <= Round(y)
  {
    if x >= 0.0 {
      FloorMonotone(x + 0.5, y + 0.5);
    } else if y < 0.0 {
      FloorMonotone(-y + 0.5, -x + 0.5);
    } else {
      FloorMonotone(0.0, y + 0.5);
      FloorMonotone(0.0, -x + 0.5);
    }
  }

  lemma RoundMonotone(x: real, y: real)
    requires x <= y
    ensures Round2(x) <= Round2(y)
  {
    NearestMonotone(x * 100.0, y * 100.0);
  }

  /** Rounding gives hundredths, leaves hundredths alone and moves nothing by more than half of one. */
  lemma RoundMeaning(x: real)
    ensures Hundredths(Round2(x))
    ensures Hundredths(x) ==> Round2(x) == x
    ensures -0.005 <= Round2(x) - x <= 0.005
    ensures Round2(-x) == -Round2(x)
  {
    var n := Round(x * 100.0);
    assert Round2(x) == Cents(n);
    if Hundredths(x) {
      var k: int :| x == Cents(k);
      assert x * 100.0 == k as real;
      assert Round(k as real) == k;
    }
    assert -0.5 <= n as real - x * 100.0 <= 0.5;
    assert -x * 100.0 == -(x * 100.0);
  }

  lemma HundredthsAdd(x: real, y: real)
    requires Hundredths(x) && Hundredths(y)
    ensures Hundredths(x + y)
  {
    var j: int :| x == Cents(j);
    var k: int :| y == Cents(k);
    assert x + y == Cents(j + k);
  }

  function Min(x: real, y: real): real { if x <= y then x else y }

  function Max(x: real, y: real): real { if x >= y then x else y }

  function Sum(xs: seq<real>): real {
    if xs == [] then 0.0 else Sum(xs[..|xs| - 1]) + xs[|xs| - 1]
  }

  function CappedSum(risks: seq<real>, cap: real): real {
    Round2(Min(Sum(risks), cap))
  }

  ghost predicate Below(xs: seq<real>, ys: seq<real>) {
    |xs| == |ys| && forall i :: 0 <= i < |xs| ==> xs[i] <= ys[i]
  }

  lemma {:induction false} SumMonotone(xs: seq<real>, ys: seq<real>)
    requires Below(xs, ys)
    ensures Sum(xs) <= Sum(ys)
  {
    if xs != [] { SumMonotone(xs[..|xs| - 1], ys[..|ys| - 1]); }
  }

  lemma SumAppend(xs: seq<real>, x: real)
    ensures Sum(xs + [x]) == Sum(xs) + x
  {
    assert (xs + [x])[..|xs|] == xs;
  }

  lemma SumOfFour(a: real, b: real, c: real, d: real)
    ensures Sum([a, b, c, d]) == a + b + c + d
  {
    SumAppend([], a);
    SumAppend([a], b);
    SumAppend([a, b], c);
    SumAppend([a, b, c], d);
    assert [] + [a] == [a] && [a] + [b] == [a, b] && [a, b] + [c] == [a, b, c] && [a, b, c] + [d] == [a, b, c, d];
  }

  lemma SumOfFive(xs: seq<real>)
    requires |xs| == 5
    ensures Sum(xs) == xs[0] + xs[1] + xs[2] + xs[3] + xs[4]
  {
    SumOfFour(xs[0], xs[1], xs[2], xs[3]);
    SumAppend(xs[..4], xs[4]);
    assert xs[..4] == [xs[0], xs[1], xs[2], xs[3]] && xs[..4] + [xs[4]] == xs;
  }

  lemma SumOfSeven(xs: seq<real>)
    requires |xs| == 7
    ensures Sum(xs) == xs[0] + xs[1] + xs[2] + xs[3] + xs[4] + xs[5] + xs[6]
  {
    SumOfFive(xs[..5]);
    SumAppend(xs[..5], xs[5]);
    SumAppend(xs[..6], xs[6]);
    assert xs[..5] + [xs[5]] == xs[..6] && xs[..6] + [xs[6]] == xs;
  }

  lemma CappedSumMonotone(xs: seq<real>, ys: seq<real>, cap: real)
    requires Below(xs, ys)
    ensures CappedSum(xs, cap) <= CappedSum(ys, cap)
  {
    SumMonotone(xs, ys);
    RoundMonotone(Min(Sum(xs), cap), Min(Sum(ys), cap));
  }

  lemma CappedSumCapped(xs: seq<real>, cap: real)
    requires Hundredths(cap)
    ensures CappedSum(xs, cap) <= cap && Hundredths(CappedSum(xs, cap))
  {
    RoundMonotone(Min(Sum(xs), cap), cap);
    RoundMeaning(cap);
    RoundMeaning(Min(Sum(xs), cap));
  }

  // ----- Facts -----

  datatype ChangeFacts = ChangeFacts(
    churn: nat, commits: nat, contributors: nat, defectCommits: nat, hasTestEvidence: bool)

  datatype CorrectnessFacts = CorrectnessFacts(
    tests: nat, failed: nat, unknown: nat, skipped: nat, runFailed: bool, compileFailed: bool, coverage: Option<real>)

  datatype Inputs = Inputs(
    isEntrypoint: bool, sloc: nat, publicApi: nat, outbound: nat, inbound: nat, complexity: Option<real>,
    change: Option<ChangeFacts>, correctness: Option<CorrectnessFacts>, locality: Option<real>,
    leverage: Option<real>, layerViolations: nat, inCycle: bool)

  datatype Component = Component(signal: string, contribution: real)

  datatype Scores = Scores(
    maintainability: Option<real>, change: Option<real>, correctness: Option<real>, architectural: real,
    quality: Option<real>, total: Option<real>, unknownMetrics: seq<string>, totalComponents: seq<Component>)

  // ----- Scores -----

  function Beyond(n: nat, allowance: nat): nat {
    if n >= allowance then n - allowance else 0
  }

  function ScoredOutbound(i: Inputs): nat {
    if i.isEntrypoint then Beyond(i.outbound, 8) else i.outbound
  }

  function ScoredViolations(i: Inputs): nat {
    if i.isEntrypoint then Beyond(i.layerViolations, 2) else i.layerViolations
  }

  function OutboundRisk(outbound: nat): real {
    Min(outbound as real * 4.0, 35.0)
  }

  function InboundRisk(outbound: nat, inbound: nat): real {
    Min(inbound as real, Max(35.0 - OutboundRisk(outbound), 0.0))
  }

  function MaintainabilityRisks(i: Inputs, outbound: nat, complexity: real): seq<real> {
    [complexity, Min(i.sloc as real * 0.12, 70.0), Min(i.publicApi as real * 2.5, 30.0),
     OutboundRisk(outbound), InboundRisk(outbound, i.inbound)]
  }

  function MaintainabilityScore(i: Inputs, outbound: nat, complexity: real): real {
    CappedSum(MaintainabilityRisks(i, outbound, complexity), 400.0)
  }

  function ChangeRisks(c: ChangeFacts): seq<real> {
    [Min(c.churn as real / 12.0, 160.0), Min(c.commits as real * 2.5, 100.0),
     Min(c.contributors as real * 14.0, 80.0), Min(c.defectCommits as real * 18.0, 90.0),
     if c.hasTestEvidence then 0.0 else 90.0]
  }

  function ChangeScore(c: ChangeFacts): real {
    CappedSum(ChangeRisks(c), 520.0)
  }

  function AnyFailed(c: CorrectnessFacts): real {
    if c.failed > 0 then 140.0 else 0.0
  }

  function RunFailure(c: CorrectnessFacts): real {
    if c.compileFailed then 180.0 else if c.runFailed && c.failed == 0 then 140.0 else 0.0
  }

  function CoverageRisk(c: CorrectnessFacts): real {
    if c.coverage.None? then 0.0 else Min(Max(70.0 - c.coverage.value, 0.0) * 1.5, 105.0)
  }

  predicate HasEvidence(c: CorrectnessFacts) {
    c.tests > 0 || (c.coverage.Some? && c.coverage.value > 0.0)
  }

  function CorrectnessRisks(c: CorrectnessFacts): seq<real> {
    [AnyFailed(c), Min(c.failed as real * 45.0, 120.0), Min(c.unknown as real * 4.0, 80.0),
     Min(c.skipped as real * 10.0, 40.0), RunFailure(c), CoverageRisk(c), if HasEvidence(c) then 0.0 else 90.0]
  }

  function CorrectnessScore(c: CorrectnessFacts): real {
    CappedSum(CorrectnessRisks(c), 470.0)
  }

  function ArchitectureRisks(i: Inputs, outbound: nat, violations: nat): seq<real> {
    [Min(outbound as real * 10.0, 120.0), Min(i.inbound as real * 8.0, 120.0), Min(violations as real * 32.0, 120.0),
     if i.inCycle then 110.0 else 0.0, if i.sloc >= 250 then 60.0 else 0.0]
  }

  function ArchitectureScore(i: Inputs): real {
    CappedSum(ArchitectureRisks(i, ScoredOutbound(i), ScoredViolations(i)), 530.0)
  }

  function Maintainability(i: Inputs): Option<real> {
    if i.complexity.None? then None else Some(MaintainabilityScore(i, ScoredOutbound(i), i.complexity.value))
  }

  function Change(i: Inputs): Option<real> {
    if i.change.None? then None else Some(ChangeScore(i.change.value))
  }

  function Correctness(i: Inputs): Option<real> {
    if i.correctness.None? then None else Some(CorrectnessScore(i.correctness.value))
  }

  function Quality(i: Inputs): Option<real> {
    if Maintainability(i).None? || i.locality.None? || i.leverage.None? then None
    else Some(Round2(Min(Maintainability(i).value + i.locality.value + i.leverage.value, 600.0)))
  }

  function Total(i: Inputs): Option<real> {
    if Change(i).None? || Correctness(i).None? || Quality(i).None? then None
    else Some(Round2(Change(i).value + Correctness(i).value + Quality(i).value + ArchitectureScore(i)))
  }

  function OrZero(x: Option<real>): real {
    if x.Some? then x.value else 0.0
  }

  function Explain(signal: string, contribution: real): Component {
    Component(signal, Round2(contribution))
  }

  function Named(name: string, score: Option<real>): seq<string> {
    if score.None? then [name] else []
  }

  function RiskScores(i: Inputs): Scores {
    Scores(
      Maintainability(i), Change(i), Correctness(i), ArchitectureScore(i), Quality(i), Total(i),
      Named("maintainability_risk", Maintainability(i)) + Named("change_risk", Change(i))
      + Named("correctness_risk", Correctness(i)) + Named("quality_risk", Quality(i)) + Named("total_score", Total(i)),
      [Explain("quality_risk", OrZero(Quality(i))), Explain("change_risk", OrZero(Change(i))),
       Explain("correctness_risk", OrZero(Correctness(i))), Explain("architectural_risk", ArchitectureScore(i))])
  }

  // ----- Caps, explanation, the unknown -----

  lemma WholeIsHundredths(n: int)
    ensures Hundredths(n as real)
  {
    assert n as real == Cents(n * 100);
  }

  lemma ScoreCaps(i: Inputs)
    ensures Change(i).Some? ==> Change(i).value <= 520.0 && Hundredths(Change(i).value)
    ensures Correctness(i).Some? ==> Correctness(i).value <= 470.0 && Hundredths(Correctness(i).value)
    ensures ArchitectureScore(i) <= 530.0 && Hundredths(ArchitectureScore(i))
    ensures Quality(i).Some? ==> Quality(i).value <= 600.0 && Hundredths(Quality(i).value)
  {
    WholeIsHundredths(520);
    WholeIsHundredths(470);
    WholeIsHundredths(530);
    WholeIsHundredths(600);
    if i.change.Some? { CappedSumCapped(ChangeRisks(i.change.value), 520.0); }
    if i.correctness.Some? { CappedSumCapped(CorrectnessRisks(i.correctness.value), 470.0); }
    CappedSumCapped(ArchitectureRisks(i, ScoredOutbound(i), ScoredViolations(i)), 530.0);
    if Quality(i).Some? {
      var raw := Min(Maintainability(i).value + i.locality.value + i.leverage.value, 600.0);
      RoundMonotone(raw, 600.0);
      RoundMeaning(600.0);
      RoundMeaning(raw);
    }
  }

  /** The caps of the change and architecture scores are exactly the sums of their parts' caps, so they
      never cut anything off. */
  lemma NothingCut(c: ChangeFacts, i: Inputs)
    ensures ChangeScore(c) == Round2(Sum(ChangeRisks(c)))
    ensures ArchitectureScore(i) == Round2(Sum(ArchitectureRisks(i, ScoredOutbound(i), ScoredViolations(i))))
  {
    SumOfFive(ChangeRisks(c));
    SumOfFive(ArchitectureRisks(i, ScoredOutbound(i), ScoredViolations(i)));
  }

  const WORST_CHANGE: ChangeFacts := ChangeFacts(1920, 40, 6, 5, false)
  const WORST_TESTS: CorrectnessFacts := CorrectnessFacts(0, 3, 20, 4, true, true, None)

  /** The correctness cap does cut: these risks sum to 650, the score is 470. */
  lemma CorrectnessCut()
    ensures Sum(CorrectnessRisks(WORST_TESTS)) == 650.0 && CorrectnessScore(WORST_TESTS) == 470.0
  {
    SumOfSeven(CorrectnessRisks(WORST_TESTS));
    WholeRounded(470);
  }

  /** Any module this entangled, changed and untested reaches every cap: 400, 520, 470, 530, 600 and, in total,
      2120. */
  lemma CapsReached(i: Inputs)
    requires !i.isEntrypoint && i.outbound >= 12 && i.inbound >= 15 && i.layerViolations >= 4 && i.inCycle && i.sloc >= 250
    requires i.complexity.Some? && i.complexity.value >= 400.0
    requires i.change == Some(WORST_CHANGE) && i.correctness == Some(WORST_TESTS)
    requires i.locality.Some? && i.leverage.Some? && i.locality.value + i.leverage.value >= 200.0
    ensures Maintainability(i) == Some(400.0) && Change(i) == Some(520.0) && Correctness(i) == Some(470.0)
    ensures ArchitectureScore(i) == 530.0 && Quality(i) == Some(600.0) && Total(i) == Some(2120.0)
  {
    CorrectnessCut();
    SumOfFive(ChangeRisks(WORST_CHANGE));
    SumOfFive(ArchitectureRisks(i, ScoredOutbound(i), ScoredViolations(i)));
    SumOfFive(MaintainabilityRisks(i, ScoredOutbound(i), i.complexity.value));
    WholeRounded(400);
    WholeRounded(520);
    WholeRounded(530);
    WholeRounded(600);
    WholeRounded(2120);
  }

  lemma WholeRounded(n: int)
    ensures Round2(n as real) == n as real
  {
    WholeIsHundredths(n);
    RoundMeaning(n as real);
  }

  function Contributions(components: seq<Component>): seq<real> {
    seq(|components|, k requires 0 <= k < |components| => components[k].contribution)
  }

  /** The total is the exact sum of its explained components, and at most 2120. */
  lemma TotalIsExplained(i: Inputs)
    requires Total(i).Some?
    ensures Total(i).value == Sum(Contributions(RiskScores(i).totalComponents))
    ensures Total(i).value == Change(i).value + Correctness(i).value + Quality(i).value + ArchitectureScore(i)
    ensures Total(i).value <= 2120.0
  {
    ScoreCaps(i);
    var c, k, q, a := Change(i).value, Correctness(i).value, Quality(i).value, ArchitectureScore(i);
    ExactSum(c, k, q, a);
    var parts := Contributions(RiskScores(i).totalComponents);
    assert parts == [q, c, k, a];
    SumOfFour(q, c, k, a);
  }

  /** Adding hundredths needs no rounding. */
  lemma ExactSum(c: real, k: real, q: real, a: real)
    requires Hundredths(c) && Hundredths(k) && Hundredths(q) && Hundredths(a)
    ensures Round2(c + k + q + a) == c + k + q + a
    ensures Round2(c) == c && Round2(k) == k && Round2(q) == q && Round2(a) == a
  {
    HundredthsAdd(c, k);
    HundredthsAdd(c + k, q);
    HundredthsAdd(c + k + q, a);
    RoundMeaning(c + k + q + a);
    RoundMeaning(q);
    RoundMeaning(c);
    RoundMeaning(k);
    RoundMeaning(a);
  }

  /** The total is unknown exactly when some input is missing, and then it says so. */
  lemma UnknownIffInputMissing(i: Inputs)
    ensures Total(i).None? <==>
            i.complexity.None? || i.change.None? || i.correctness.None? || i.locality.None? || i.leverage.None?
    ensures Total(i).None? <==> RiskScores(i).unknownMetrics != []
    ensures Total(i).None? <==> "total_score" in RiskScores(i).unknownMetrics
  {
    var names := RiskScores(i).unknownMetrics;
    if Total(i).None? {
      assert names[|names| - 1] == "total_score";
    } else {
      assert names == [];
    }
  }

  /** Outbound and inbound dependencies together contribute `4 * outbound + inbound`, at most 35. */
  lemma DependencyContribution(outbound: nat, inbound: nat)
    ensures OutboundRisk(outbound) + InboundRisk(outbound, inbound) == Min(35.0, 4.0 * outbound as real + inbound as real)
  {
  }

  // ----- What a signal costs, and from where on more of it costs nothing -----

  function UpTo(n: nat, most: nat): real {
    if n <= most then n as real else most as real
  }

  lemma ChangeExact(c: ChangeFacts)
    ensures ChangeScore(c) == Round2(
              UpTo(c.churn, 1920) / 12.0 + 2.5 * UpTo(c.commits, 40)
              + (if c.contributors > 5 then 80.0 else 14.0 * c.contributors as real)
              + 18.0 * UpTo(c.defectCommits, 5) + (if c.hasTestEvidence then 0.0 else 90.0))
  {
    NothingCut(c, NO_INPUTS);
    SumOfFive(ChangeRisks(c));
  }

  const NO_INPUTS: Inputs := Inputs(false, 0, 0, 0, 0, None, None, None, None, None, 0, false)

  /** One failed test costs 185, two 230, and more 260; a run that did not compile costs 180, one that failed
      without a failed test 140; every point of coverage below 70 costs 1.5. */
  lemma CorrectnessExact(c: CorrectnessFacts)
    ensures CorrectnessScore(c) == Round2(Min(470.0,
              FailureCost(c.failed) + 4.0 * UpTo(c.unknown, 20) + 10.0 * UpTo(c.skipped, 4)
              + (if c.compileFailed then 180.0 else if c.runFailed && c.failed == 0 then 140.0 else 0.0)
              + CoverageShortfall(c.coverage)
              + (if c.tests == 0 && (c.coverage.None? || c.coverage.value <= 0.0) then 90.0 else 0.0)))
  {
    SumOfSeven(CorrectnessRisks(c));
    FailuresExact(c);
  }

  function FailureCost(failed: nat): real {
    match failed case 0 => 0.0 case 1 => 185.0 case 2 => 230.0 case _ => 260.0
  }

  lemma FailuresExact(c: CorrectnessFacts)
    ensures AnyFailed(c) + Min(c.failed as real * 45.0, 120.0) == FailureCost(c.failed)
    ensures CoverageRisk(c) == CoverageShortfall(c.coverage)
  {
  }

  function CoverageShortfall(coverage: Option<real>): real {
    match coverage
    case None => 0.0
    case Some(percent) => if percent >= 70.0 then 0.0 else if percent <= 0.0 then 105.0 else 105.0 - 1.5 * percent
  }

  /** An entrypoint is allowed eight outbound dependencies and two layer violations. */
  lemma ArchitectureExact(i: Inputs)
    ensures var outbound := if !i.isEntrypoint then i.outbound else if i.outbound <= 8 then 0 else i.outbound - 8;
            var violations := if !i.isEntrypoint then i.layerViolations
                              else if i.layerViolations <= 2 then 0 else i.layerViolations - 2;
            ArchitectureScore(i) == Round2(
              10.0 * UpTo(outbound, 12) + 8.0 * UpTo(i.inbound, 15)
              + (if violations > 3 then 120.0 else 32.0 * violations as real)
              + (if i.inCycle then 110.0 else 0.0) + (if i.sloc < 250 then 0.0 else 60.0))
  {
    SumOfFive(ArchitectureRisks(i, ScoredOutbound(i), ScoredViolations(i)));
  }

  /** Dependencies both ways share one allowance of 35. */
  lemma MaintainabilityExact(i: Inputs)
    requires i.complexity.Some?
    ensures var outbound := if !i.isEntrypoint then i.outbound else if i.outbound <= 8 then 0 else i.outbound - 8;
            Maintainability(i) == Some(Round2(Min(400.0,
              i.complexity.value + (if i.sloc > 583 then 70.0 else 0.12 * i.sloc as real) + 2.5 * UpTo(i.publicApi, 12)
              + UpTo(4 * outbound + i.inbound, 35))))
  {
    DependencyContribution(ScoredOutbound(i), i.inbound);
    SumOfFive(MaintainabilityRisks(i, ScoredOutbound(i), i.complexity.value));
  }

  /** Every figure is reported under its own name, and the total is explained by its four parts. */
  lemma ReportedUnderNames(i: Inputs)
    ensures var r := RiskScores(i);
            && r.maintainability == Maintainability(i) && r.change == Change(i) && r.correctness == Correctness(i)
            && r.architectural == ArchitectureScore(i) && r.quality == Quality(i) && r.total == Total(i)
            && r.totalComponents == [
                 Component("quality_risk", Round2(if r.quality.Some? then r.quality.value else 0.0)),
                 Component("change_risk", Round2(if r.change.Some? then r.change.value else 0.0)),
                 Component("correctness_risk", Round2(if r.correctness.Some? then r.correctness.value else 0.0)),
                 Component("architectural_risk", Round2(r.architectural))]
  {
  }

  /** What is not known is listed, and nothing else. */
  lemma UnknownsListed(i: Inputs)
    ensures var names := RiskScores(i).unknownMetrics;
            && ("maintainability_risk" in names <==> i.complexity.None?)
            && ("change_risk" in names <==> i.change.None?)
            && ("correctness_risk" in names <==> i.correctness.None?)
            && ("quality_risk" in names <==> i.complexity.None? || i.locality.None? || i.leverage.None?)
            && ("total_score" in names <==> Total(i).None?)
  {
    var names := ["maintainability_risk", "change_risk", "correctness_risk", "quality_risk", "total_score"];
    assert names[0][0] == 'm' && names[1][1] == 'h' && names[2][1] == 'o' && names[3][0] == 'q' && names[4][0] == 't';
  }

  // ----- Monotonicity -----

  predicate NoLess(x: Option<real>, y: Option<real>) {
    (x.None? && y.None?) || (x.Some? && y.Some? && x.value <= y.value)
  }

  predicate MilderChange(a: ChangeFacts, b: ChangeFacts) {
    && a.churn <= b.churn && a.commits <= b.commits && a.contributors <= b.contributors
    && a.defectCommits <= b.defectCommits && (b.hasTestEvidence ==> a.hasTestEvidence)
  }

  /** More failures, unknowns and skips, fewer tests and less coverage are worse. */
  predicate MilderCorrectness(a: CorrectnessFacts, b: CorrectnessFacts) {
    && a.failed <= b.failed && a.unknown <= b.unknown && a.skipped <= b.skipped && b.tests <= a.tests
    && (a.runFailed ==> b.runFailed) && (a.compileFailed ==> b.compileFailed) && NoLess(b.coverage, a.coverage)
  }

  /** `j` is at least as risky as `i` in every respect; losing the entrypoint allowance is riskier. */
  predicate Milder(i: Inputs, j: Inputs) {
    && i.sloc <= j.sloc && i.publicApi <= j.publicApi && i.outbound <= j.outbound && i.inbound <= j.inbound
    && i.layerViolations <= j.layerViolations && (i.inCycle ==> j.inCycle) && (j.isEntrypoint ==> i.isEntrypoint)
    && NoLess(i.complexity, j.complexity) && NoLess(i.locality, j.locality) && NoLess(i.leverage, j.leverage)
    && (i.change.Some? <==> j.change.Some?) && (i.correctness.Some? <==> j.correctness.Some?)
    && (i.change.Some? ==> MilderChange(i.change.value, j.change.value))
    && (i.correctness.Some? ==> MilderCorrectness(i.correctness.value, j.correctness.value))
  }

  lemma ChangeMonotone(a: ChangeFacts, b: ChangeFacts)
    requires MilderChange(a, b)
    ensures ChangeScore(a) <= ChangeScore(b)
  {
    CappedSumMonotone(ChangeRisks(a), ChangeRisks(b), 520.0);
  }

  /** The first failed test turns the run-failure charge off, but never lowers the score. */
  lemma CorrectnessMonotone(a: CorrectnessFacts, b: CorrectnessFacts)
    requires MilderCorrectness(a, b)
    ensures CorrectnessScore(a) <= CorrectnessScore(b)
  {
    assert AnyFailed(a) + RunFailure(a) <= AnyFailed(b) + RunFailure(b);
    var xs, ys := CorrectnessRisks(a), CorrectnessRisks(b);
    SumOfSeven(xs);
    SumOfSeven(ys);
    assert xs[0] + xs[4] <= ys[0] + ys[4];
    assert xs[1] <= ys[1] && xs[2] <= ys[2] && xs[3] <= ys[3] && xs[5] <= ys[5] && xs[6] <= ys[6];
    RoundMonotone(Min(Sum(xs), 470.0), Min(Sum(ys), 470.0));
  }

  lemma AllowanceMonotone(i: Inputs, j: Inputs)
    requires Milder(i, j)
    ensures ScoredOutbound(i) <= ScoredOutbound(j) && ScoredViolations(i) <= ScoredViolations(j)
  {
  }

  lemma ArchitectureMonotone(i: Inputs, j: Inputs)
    requires Milder(i, j)
    ensures ArchitectureScore(i) <= ArchitectureScore(j)
  {
    AllowanceMonotone(i, j);
    CappedSumMonotone(ArchitectureRisks(i, ScoredOutbound(i), ScoredViolations(i)),
                      ArchitectureRisks(j, ScoredOutbound(j), ScoredViolations(j)), 530.0);
  }

  /** More outbound dependencies leave less room for inbound ones, yet never lower the score. */
  lemma MaintainabilityMonotone(i: Inputs, j: Inputs)
    requires Milder(i, j)
    ensures NoLess(Maintainability(i), Maintainability(j))
  {
    AllowanceMonotone(i, j);
    if i.complexity.Some? {
      var oi, oj := ScoredOutbound(i), ScoredOutbound(j);
      var xs := MaintainabilityRisks(i, oi, i.complexity.value);
      var ys := MaintainabilityRisks(j, oj, j.complexity.value);
      DependencyContribution(oi, i.inbound);
      DependencyContribution(oj, j.inbound);
      SumOfFive(xs);
      SumOfFive(ys);
      RoundMonotone(Min(Sum(xs), 400.0), Min(Sum(ys), 400.0));
    }
  }

  /** Nothing that makes a module riskier, the loss of the entrypoint allowance included, lowers any score. */
  lemma ScoresMonotone(i: Inputs, j: Inputs)
    requires Milder(i, j)
    ensures NoLess(Maintainability(i), Maintainability(j)) && NoLess(Change(i), Change(j))
    ensures NoLess(Correctness(i), Correctness(j)) && ArchitectureScore(i) <= ArchitectureScore(j)
    ensures NoLess(Quality(i), Quality(j)) && NoLess(Total(i), Total(j))
  {
    MaintainabilityMonotone(i, j);
    ArchitectureMonotone(i, j);
    if i.change.Some? { ChangeMonotone(i.change.value, j.change.value); }
    if i.correctness.Some? { CorrectnessMonotone(i.correctness.value, j.correctness.value); }
    QualityMonotone(i, j);
    if Total(i).Some? {
      TotalIsExplained(i);
      TotalIsExplained(j);
    }
  }

  lemma QualityMonotone(i: Inputs, j: Inputs)
    requires NoLess(Maintainability(i), Maintainability(j))
    requires NoLess(i.locality, j.locality) && NoLess(i.leverage, j.leverage)
    ensures NoLess(Quality(i), Quality(j))
  {
    if Quality(i).Some? {
      RoundMonotone(Min(Maintainability(i).value + i.locality.value + i.leverage.value, 600.0),
                    Min(Maintainability(j).value + j.locality.value + j.leverage.value, 600.0));
    }
  }

  /** A module with the entrypoint allowance never scores higher than the same module without it. */
  lemma AllowanceNeverRaises(i: Inputs)
    ensures var with, without := i.(isEntrypoint := true), i.(isEntrypoint := false);
            && NoLess(Maintainability(with), Maintainability(without))
            && ArchitectureScore(with) <= ArchitectureScore(without)
            && NoLess(Quality(with), Quality(without)) && NoLess(Total(with), Total(without))
  {
    ScoresMonotone(i.(isEntrypoint := true), i.(isEntrypoint := false));
  }
}
