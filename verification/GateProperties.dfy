/** The gate fails closed, and more evidence against a project never helps it. */
module GateProperties {
  import opened Order
  import opened GateInputs
  import opened Waivers
  import opened Gate

  lemma PassesIff(q: Request)
    requires Loaded(q.inputs)
    ensures Passes(q) <==>
              && (forall f :: !RunFailure(q, f))
              && (forall p :: p in q.failOn ==> !CliEvidence(q, p))
              && (forall id :: id in q.policy.rules ==> RuleHolds(q, id))
              && !HasErrors(q, FromArchitecture)
  {
    if Passes(q) {
      forall f ensures !RunFailure(q, f) {
        assert !Fails(q, f.policy);
        assert f == Failure(f.policy, f.cause);
      }
      assert !Fails(q, ConfiguredRules) && !Fails(q, ArchitecturePolicy);
      forall p | p in q.failOn ensures !CliEvidence(q, p) {
        assert !Fails(q, Cli(p));
      }
    }
  }

  /** Every artifact an enabled policy needs was valid, complete and measured from the present inputs. */
  lemma PassedPoliciesHadEvidence(q: Request, compiler: bool, current: Fingerprint, read: Artifact -> Reading)
    requires Loaded(q.inputs) && Passes(q)
    requires forall a: Artifact :: q.inputs.status[a].Available? <==> CurrentAndComplete(compiler, current, a, read(a))
    ensures forall p, a :: p in q.failOn && a in RequiredFiles(p) ==> CurrentAndComplete(compiler, current, a, read(a))
    ensures forall a :: OnRegression in q.failOn && Auxiliary(q, a) ==> CurrentAndComplete(compiler, current, a, read(a))
    ensures EnforcesArchitecture(q) ==> CurrentAndComplete(compiler, current, ArchitectureRules, read(ArchitectureRules))
  {
    PassesIff(q);
    forall a | OnRegression in q.failOn && Auxiliary(q, a) ensures CurrentAndComplete(compiler, current, a, read(a)) {
      assert !RunFailure(q, Failure(Cli(OnRegression), NotAvailable(a, q.inputs.status[a])));
    }
    forall p, a | p in q.failOn && a in RequiredFiles(p)
      ensures CurrentAndComplete(compiler, current, a, read(a))
    {
      assert !RunFailure(q, Failure(Cli(p), NotAvailable(a, q.inputs.status[a])));
    }
    assert !RunFailure(q, Failure(ArchitecturePolicy, NotAvailable(ArchitectureRules, q.inputs.status[ArchitectureRules])));
  }

  /** Every error-level rule was evaluated, on evidence as good, and met its maximum. */
  lemma PassedRulesWereEvaluated(q: Request, compiler: bool, current: Fingerprint, read: Artifact -> Reading, id: string)
    requires Loaded(q.inputs) && Passes(q)
    requires forall a: Artifact :: q.inputs.status[a].Available? <==> CurrentAndComplete(compiler, current, a, read(a))
    requires id in q.policy.rules && q.policy.rules[id].level.Error?
    ensures Evidence(q, id).Some?
    ensures var a := Evidence(q, id).value;
            && CurrentAndComplete(compiler, current, a, read(a))
            && (a.RustPractices? && id != OWNER_RULE ==> CheckObserved(q.inputs.documents[a].checks, id))
    ensures CountAll(q, id, q.policy.rules[id]) <= q.policy.rules[id].max
  {
    PassesIff(q);
    assert RuleHolds(q, id);
    EvaluatedMeans(q, id);
  }

  /** The regression policy never passes without a comparable baseline and known scores. */
  lemma PassedRegressionWasCompared(q: Request)
    requires Loaded(q.inputs) && Passes(q) && OnRegression in q.failOn
    ensures q.inputs.status[Map].Available? && q.baseline.Some? && q.baseline.value.comparison.Some?
    ensures None !in q.inputs.documents[Map].scores
    ensures forall d :: d in q.baseline.value.comparison.value.scores ==> d <= q.maxRegression
    ensures forall d :: d in q.baseline.value.comparison.value.evidence ==>
              !DeltaIncomparable(d) && !DeltaRegressed(d, q.maxRegression)
  {
    PassesIff(q);
    assert Map in RequiredFiles(OnRegression);
    assert !RunFailure(q, Failure(Cli(OnRegression), NotAvailable(Map, q.inputs.status[Map])));
    assert !RunFailure(q, Failure(Cli(OnRegression), NoBaseline));
    assert !RunFailure(q, Failure(Cli(OnRegression), UnknownScores));
    assert !RunFailure(q, Failure(Cli(OnRegression), UnusableBaseline));
    assert !RunFailure(q, Failure(Cli(OnRegression), Incomparable));
    assert !CliEvidence(q, OnRegression);
  }

  // ----- Monotonicity -----

  function Inserted<T>(xs: seq<T>, i: nat, x: T): seq<T>
    requires i <= |xs|
  {
    xs[..i] + [x] + xs[i..]
  }

  lemma InsertedMember<T>(xs: seq<T>, i: nat, x: T)
    requires i <= |xs|
    ensures forall y :: y in Inserted(xs, i, x) <==> y in xs || y == x
  {
    assert xs == xs[..i] + xs[i..];
  }

  /** `q` with one more finding from `source`, and nothing else changed. */
  function WithFinding(q: Request, source: Source, i: nat, f: Finding): Request
    requires i <= |FindingsFrom(q, source)|
    requires source.FromExternal? || ArtifactOf(source) in q.inputs.documents
  {
    if source.FromExternal? then q.(external := Inserted(q.external, i, f))
    else
      var a := ArtifactOf(source);
      var document := q.inputs.documents[a].(findings := Inserted(q.inputs.documents[a].findings, i, f));
      q.(inputs := q.inputs.(documents := q.inputs.documents[a := document]))
  }

  /** Two requests that differ at most in their findings. */
  ghost predicate SameButFindings(q: Request, r: Request) {
    && r == q.(external := r.external, inputs := r.inputs)
    && r.inputs.status == q.inputs.status
    && r.inputs.documents.Keys == q.inputs.documents.Keys
    && forall a :: a in q.inputs.documents ==>
         r.inputs.documents[a] == q.inputs.documents[a].(findings := r.inputs.documents[a].findings)
  }

  ghost predicate FewerFindings(q: Request, r: Request) {
    forall source, f :: f in FindingsFrom(q, source) ==> f in FindingsFrom(r, source)
  }

  lemma SameFailures(q: Request, r: Request, f: Failure)
    requires Loaded(q.inputs) && Loaded(r.inputs) && SameButFindings(q, r)
    ensures RunFailure(q, f) <==> RunFailure(r, f)
  {
    assert forall a :: Auxiliary(q, a) <==> Auxiliary(r, a);
    assert forall p, c :: PolicyFailure(q, p, c) <==> PolicyFailure(r, p, c);
    assert InputFailure(q, f) <==> InputFailure(r, f);
    assert Compared(q) == Compared(r);
  }

  lemma SameUnavailability(q: Request, r: Request, id: string)
    requires Loaded(q.inputs) && Loaded(r.inputs) && SameButFindings(q, r)
    ensures RuleUnavailability(q, id) == RuleUnavailability(r, id)
  {
  }

  lemma MoreErrors(q: Request, r: Request, source: Source)
    requires r.policy == q.policy && FewerFindings(q, r)
    ensures HasErrors(q, source) ==> HasErrors(r, source)
  {
  }

  lemma MoreEvidence(q: Request, r: Request, p: FailPolicy)
    requires Loaded(q.inputs) && Loaded(r.inputs) && SameButFindings(q, r) && FewerFindings(q, r)
    ensures CliEvidence(q, p) ==> CliEvidence(r, p)
  {
    assert PartialArtifacts(q.inputs) == PartialArtifacts(r.inputs);
    assert Compared(q) == Compared(r);
    MoreErrors(q, r, FromPractices);
    MoreErrors(q, r, FromReliability);
  }

  lemma InsertionCounts(q: Request, r: Request, source: Source, i: nat, f: Finding, id: string, rule: PolicyRule)
    requires r.policy == q.policy && i <= |FindingsFrom(q, source)|
    requires FindingsFrom(r, source) == Inserted(FindingsFrom(q, source), i, f)
    ensures Count(q, source, id, rule) <= Count(r, source, id, rule)
  {
    var findings, p := FindingsFrom(q, source), CountedBy(q, source, id, rule);
    assert findings == findings[..i] + findings[i..];
    KeepConcat(p, findings[..i], findings[i..]);
    KeepConcat(p, findings[..i] + [f], findings[i..]);
    KeepConcat(p, findings[..i], [f]);
    KeepMonotone(p, CountedBy(r, source, id, rule), FindingsFrom(r, source));
  }

  lemma SameFindingsCount(q: Request, r: Request, source: Source, id: string, rule: PolicyRule)
    requires r.policy == q.policy && FindingsFrom(r, source) == FindingsFrom(q, source)
    ensures Count(q, source, id, rule) <= Count(r, source, id, rule)
  {
    KeepMonotone(CountedBy(q, source, id, rule), CountedBy(r, source, id, rule), FindingsFrom(q, source));
  }

  lemma WithFindingShape(q: Request, source: Source, i: nat, f: Finding)
    requires Loaded(q.inputs) && i <= |FindingsFrom(q, source)|
    requires source.FromExternal? || ArtifactOf(source) in q.inputs.documents
    ensures var r := WithFinding(q, source, i, f);
            && Loaded(r.inputs) && SameButFindings(q, r)
            && FindingsFrom(r, source) == Inserted(FindingsFrom(q, source), i, f)
            && forall s: Source :: s != source ==> FindingsFrom(r, s) == FindingsFrom(q, s)
  {
  }

  lemma WithFindingFewer(q: Request, r: Request, source: Source, i: nat, f: Finding)
    requires i <= |FindingsFrom(q, source)|
    requires FindingsFrom(r, source) == Inserted(FindingsFrom(q, source), i, f)
    requires forall s: Source :: s != source ==> FindingsFrom(r, s) == FindingsFrom(q, s)
    ensures FewerFindings(q, r)
  {
    InsertedMember(FindingsFrom(q, source), i, f);
  }

  /** Another finding, anywhere, never turns a failing check into a passing one. */
  lemma AddedFindingNeverPasses(q: Request, source: Source, i: nat, f: Finding)
    requires Loaded(q.inputs) && i <= |FindingsFrom(q, source)|
    requires source.FromExternal? || ArtifactOf(source) in q.inputs.documents
    ensures Loaded(WithFinding(q, source, i, f).inputs)
    ensures Passes(WithFinding(q, source, i, f)) ==> Passes(q)
  {
    var r := WithFinding(q, source, i, f);
    WithFindingShape(q, source, i, f);
    WithFindingFewer(q, r, source, i, f);
    PassesIff(q);
    PassesIff(r);
    forall g ensures RunFailure(q, g) <==> RunFailure(r, g) { SameFailures(q, r, g); }
    forall p ensures CliEvidence(q, p) ==> CliEvidence(r, p) { MoreEvidence(q, r, p); }
    MoreErrors(q, r, FromArchitecture);
    forall id | id in q.policy.rules && RuleHolds(r, id) ensures RuleHolds(q, id) {
      AddedFindingCounts(q, r, source, i, f, id);
    }
  }

  lemma AddedFindingCounts(q: Request, r: Request, source: Source, i: nat, f: Finding, id: string)
    requires Loaded(q.inputs) && Loaded(r.inputs) && SameButFindings(q, r) && i <= |FindingsFrom(q, source)|
    requires FindingsFrom(r, source) == Inserted(FindingsFrom(q, source), i, f)
    requires forall s: Source :: s != source ==> FindingsFrom(r, s) == FindingsFrom(q, s)
    requires id in q.policy.rules && RuleHolds(r, id)
    ensures RuleHolds(q, id)
  {
    var rule := q.policy.rules[id];
    SameUnavailability(q, r, id);
    forall s: Source ensures Count(q, s, id, rule) <= Count(r, s, id, rule) {
      if s == source { InsertionCounts(q, r, s, i, f, id, rule); } else { SameFindingsCount(q, r, s, id, rule); }
    }
  }

  /** Enabling another policy never turns a failing check into a passing one. */
  lemma AddedPolicyNeverPasses(q: Request, i: nat, p: FailPolicy)
    requires Loaded(q.inputs) && i <= |q.failOn|
    ensures Passes(q.(failOn := Inserted(q.failOn, i, p))) ==> Passes(q)
  {
    var r := q.(failOn := Inserted(q.failOn, i, p));
    InsertedMember(q.failOn, i, p);
    PassesIff(q);
    PassesIff(r);
    forall f | RunFailure(q, f) ensures RunFailure(r, f) {
      assert forall p, c :: PolicyFailure(q, p, c) ==> PolicyFailure(r, p, c);
      assert InputFailure(q, f) ==> InputFailure(r, f);
      assert Compared(q) == Compared(r);
    }
    forall id | id in q.policy.rules && RuleHolds(r, id) ensures RuleHolds(q, id) {
      PolicyOnlyCounts(q, r, id);
    }
    forall e | e in q.failOn && CliEvidence(q, e) ensures CliEvidence(r, e) {
      assert Compared(q) == Compared(r);
    }
  }

  lemma PolicyOnlyCounts(q: Request, r: Request, id: string)
    requires Loaded(q.inputs) && r == q.(failOn := r.failOn) && id in q.policy.rules && RuleHolds(r, id)
    ensures RuleHolds(q, id)
  {
    var rule := q.policy.rules[id];
    assert RuleUnavailability(q, id) == RuleUnavailability(r, id);
    forall s: Source ensures Count(q, s, id, rule) <= Count(r, s, id, rule) {
      SameFindingsCount(q, r, s, id, rule);
    }
  }

  function WithWaiver(q: Request, i: nat, w: Waiver): Request
    requires i <= |q.policy.waivers|
  {
    q.(policy := q.policy.(waivers := Inserted(q.policy.waivers, i, w)))
  }

  /** Another waiver, wherever it is put, changes a finding at most from not waived to waived, and an
      expired one changes nothing. */
  lemma WaiverOnlyWaives(q: Request, i: nat, w: Waiver, source: Source, f: Finding)
    requires i <= |q.policy.waivers|
    ensures var part, part' := PartOf(q.policy, source, f), PartOf(WithWaiver(q, i, w).policy, source, f);
            && (part' == part || part' == Waived)
            && (Expired(w, q.policy.today) ==> part' == part)
  {
    var policy := WithWaiver(q, i, w).policy;
    InsertedMember(q.policy.waivers, i, w);
    WaivedIff(q.policy, f);
    WaivedIff(policy, f);
  }

  lemma WaiverCounts(q: Request, i: nat, w: Waiver, source: Source, id: string, rule: PolicyRule)
    requires i <= |q.policy.waivers|
    ensures Count(WithWaiver(q, i, w), source, id, rule) <= Count(q, source, id, rule)
    ensures Expired(w, q.policy.today) ==> Count(WithWaiver(q, i, w), source, id, rule) == Count(q, source, id, rule)
  {
    var r := WithWaiver(q, i, w);
    forall f: Finding
      ensures CountedBy(r, source, id, rule)(f) ==> CountedBy(q, source, id, rule)(f)
      ensures Expired(w, q.policy.today) ==> (CountedBy(q, source, id, rule)(f) ==> CountedBy(r, source, id, rule)(f))
    {
      WaiverOnlyWaives(q, i, w, source, f);
    }
    KeepMonotone(CountedBy(r, source, id, rule), CountedBy(q, source, id, rule), FindingsFrom(q, source));
    if Expired(w, q.policy.today) {
      KeepMonotone(CountedBy(q, source, id, rule), CountedBy(r, source, id, rule), FindingsFrom(q, source));
    }
  }

  lemma WaiverErrors(q: Request, i: nat, w: Waiver, source: Source)
    requires i <= |q.policy.waivers|
    ensures HasErrors(WithWaiver(q, i, w), source) ==> HasErrors(q, source)
    ensures Expired(w, q.policy.today) ==> (HasErrors(q, source) ==> HasErrors(WithWaiver(q, i, w), source))
  {
    forall f ensures var part, part' := PartOf(q.policy, source, f), PartOf(WithWaiver(q, i, w).policy, source, f);
                     && (part' == Errors ==> part == Errors)
                     && (Expired(w, q.policy.today) ==> part' == part) {
      WaiverOnlyWaives(q, i, w, source, f);
    }
  }

  lemma WaiverRules(q: Request, i: nat, w: Waiver, id: string)
    requires Loaded(q.inputs) && i <= |q.policy.waivers| && id in q.policy.rules
    ensures RuleHolds(q, id) ==> RuleHolds(WithWaiver(q, i, w), id)
    ensures Expired(w, q.policy.today) ==> (RuleHolds(WithWaiver(q, i, w), id) ==> RuleHolds(q, id))
  {
    var r, rule := WithWaiver(q, i, w), q.policy.rules[id];
    assert RuleUnavailability(q, id) == RuleUnavailability(r, id);
    forall s: Source
      ensures Count(r, s, id, rule) <= Count(q, s, id, rule)
      ensures Expired(w, q.policy.today) ==> Count(r, s, id, rule) == Count(q, s, id, rule)
    {
      WaiverCounts(q, i, w, s, id, rule);
    }
  }

  lemma WaiverFailures(q: Request, i: nat, w: Waiver, f: Failure)
    requires Loaded(q.inputs) && i <= |q.policy.waivers|
    ensures RunFailure(q, f) <==> RunFailure(WithWaiver(q, i, w), f)
  {
    var r := WithWaiver(q, i, w);
    assert forall p, c :: PolicyFailure(q, p, c) <==> PolicyFailure(r, p, c);
    assert InputFailure(q, f) <==> InputFailure(r, f);
    assert Compared(q) == Compared(r);
    assert UsesExternal(q.policy) == UsesExternal(r.policy);
  }

  lemma WaiverEvidence(q: Request, i: nat, w: Waiver, p: FailPolicy)
    requires Loaded(q.inputs) && i <= |q.policy.waivers|
    ensures CliEvidence(WithWaiver(q, i, w), p) ==> CliEvidence(q, p)
    ensures Expired(w, q.policy.today) ==> (CliEvidence(q, p) ==> CliEvidence(WithWaiver(q, i, w), p))
  {
    WaiverErrors(q, i, w, FromPractices);
    WaiverErrors(q, i, w, FromReliability);
    assert Compared(q) == Compared(WithWaiver(q, i, w));
  }

  /** Another waiver never turns a passing check into a failing one, and an expired one changes no
      verdict. */
  lemma AddedWaiverNeverFails(q: Request, i: nat, w: Waiver)
    requires Loaded(q.inputs) && i <= |q.policy.waivers|
    ensures Passes(q) ==> Passes(WithWaiver(q, i, w))
    ensures Expired(w, q.policy.today) ==> (Passes(WithWaiver(q, i, w)) ==> Passes(q))
  {
    var r := WithWaiver(q, i, w);
    PassesIff(q);
    PassesIff(r);
    forall f ensures RunFailure(q, f) <==> RunFailure(r, f) { WaiverFailures(q, i, w, f); }
    forall p
      ensures CliEvidence(r, p) ==> CliEvidence(q, p)
      ensures Expired(w, q.policy.today) ==> (CliEvidence(q, p) ==> CliEvidence(r, p))
    {
      WaiverEvidence(q, i, w, p);
    }
    forall id | id in q.policy.rules
      ensures RuleHolds(q, id) ==> RuleHolds(r, id)
      ensures Expired(w, q.policy.today) ==> (RuleHolds(r, id) ==> RuleHolds(q, id))
    {
      WaiverRules(q, i, w, id);
    }
    WaiverErrors(q, i, w, FromArchitecture);
  }
}
