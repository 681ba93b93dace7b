/** The compiler inventory report and the check every consumer runs on it
    (src/compiler_inventory.rs, src/compiler_inventory/capture.rs). */
module Inventories {
  import opened Order
  import opened Origins
  import opened Profiles
  import Capture
  import ContextGraph

  /** A selected compilation context: manifest directory, source root, test mode. */
  datatype Unit = Unit(manifestDir: string, sourceRoot: string, test: bool)

  datatype Confidence = Confidence(complete: bool, partial: bool, scope: string, contexts: nat,
                                   moduleEdges: Option<nat>, missing: seq<string>)

  datatype Summary = Summary(complete: bool, contextCount: nat, typeCount: nat, completeCaptures: Option<nat>)

  datatype Report = Report(backend: string, modelVersion: nat, requestedScope: string,
                           captureFailures: seq<string>, summary: Summary, profiles: seq<Profile>,
                           expected: seq<Unit>, graphs: Option<seq<ContextGraph.Graph>>, confidence: Confidence)

  /** `expected` is a BTreeSet, held as its iteration order. */
  datatype Inventory = Inventory(profiles: seq<Profile>, expected: seq<Unit>, reasons: seq<string>,
                                 requestedScope: string)

  // ----- Sets of compilation contexts -----

  function UnitKey(u: Unit): seq<string> {
    [u.manifestDir, u.sourceRoot, if u.test then "true" else "false"]
  }

  ghost predicate IsUnitSet(us: seq<Unit>) {
    forall i, j :: 0 <= i < j < |us| ==> ListLess(UnitKey(us[i]), UnitKey(us[j]))
  }

  function InsertUnit(us: seq<Unit>, u: Unit): (r: seq<Unit>)
    ensures Elements(r) == Elements(us) + {u}
  {
    if us == [] || ListLess(UnitKey(u), UnitKey(us[0])) then [u] + us
    else if u == us[0] then us
    else
      assert us == [us[0]] + us[1..];
      var rest := InsertUnit(us[1..], u);
      assert Elements([us[0]] + rest) == {us[0]} + Elements(rest);
      assert Elements(us) == {us[0]} + Elements(us[1..]);
      [us[0]] + rest
  }

  /** Collecting an array into a BTreeSet. */
  function CollectUnits(rows: seq<Unit>): (r: seq<Unit>)
    ensures Elements(r) == Elements(rows)
  {
    if rows == [] then []
    else
      assert rows == [rows[0]] + rows[1..];
      InsertUnit(CollectUnits(rows[1..]), rows[0])
  }

  lemma {:induction false} CollectSorted(us: seq<Unit>)
    requires IsUnitSet(us)
    ensures CollectUnits(us) == us
  {
    if us != [] {
      var first, rest := us[0], us[1..];
      assert us == [first] + rest;
      CollectSorted(rest);
      LeastFirst(first, rest);
    }
  }

  lemma {:induction false} LeastFirst(first: Unit, rest: seq<Unit>)
    requires rest != [] ==> ListLess(UnitKey(first), UnitKey(rest[0]))
    ensures InsertUnit(rest, first) == [first] + rest
  {
  }

  lemma UnitsDistinct(us: seq<Unit>)
    requires IsUnitSet(us)
    ensures forall i, j :: 0 <= i < j < |us| ==> us[i] != us[j]
  {
    forall i, j | 0 <= i < j < |us| ensures us[i] != us[j] {
      ListTrichotomy(UnitKey(us[i]), UnitKey(us[j]));
    }
  }

  function UnitOf(p: Profile): Unit {
    Unit(p.manifestDir, p.sourceRoot, p.test)
  }

  // ----- Coverage -----

  /** The captured contexts are distinct and are exactly the expected ones, of which there is one. */
  predicate Covered(ps: seq<Profile>, expected: seq<Unit>) {
    && expected != []
    && (forall i, j :: 0 <= i < j < |ps| ==> UnitOf(ps[i]) != UnitOf(ps[j]))
    && (forall u :: u in expected ==> exists p :: p in ps && UnitOf(p) == u)
    && (forall p :: p in ps ==> UnitOf(p) in expected)
  }

  method ValidateCoverage(ps: seq<Profile>, expected: seq<Unit>) returns (ok: bool)
    ensures ok <==> Covered(ps, expected)
  {
    var actual: set<Unit> := {};
    for i := 0 to |ps|
      invariant forall u :: u in actual <==> exists k :: 0 <= k < i && UnitOf(ps[k]) == u
      invariant forall j, k :: 0 <= j < k < i ==> UnitOf(ps[j]) != UnitOf(ps[k])
    {
      if UnitOf(ps[i]) in actual {
        return false;
      }
      actual := actual + {UnitOf(ps[i])};
    }
    var wanted := set u | u in expected;
    forall p | p in ps ensures UnitOf(p) in actual {
      var k :| 0 <= k < |ps| && ps[k] == p;
    }
    if actual == wanted {
      forall u | u in expected ensures exists p :: p in ps && UnitOf(p) == u {
        assert u in actual;
        var k :| 0 <= k < |ps| && UnitOf(ps[k]) == u;
        assert ps[k] in ps;
      }
    } else if Covered(ps, expected) {
      forall u ensures u in actual <==> u in wanted {
        if u in wanted {
          var p :| p in ps && UnitOf(p) == u;
        }
      }
      assert false;
    }
    return expected != [] && actual == wanted;
  }

  // ----- Producing the report -----

  predicate Attributed(p: Profile) {
    && (forall t :: t in p.types ==> t.origin.location.Some?)
    && (forall i :: i in p.impls ==> i.ownerId.None? || i.origin.location.Some?)
  }

  function TypeConfidence(inv: Inventory, fingerprintComplete: bool): Confidence {
    var missing := inv.reasons
      + (if fingerprintComplete then [] else ["compiler inventory input fingerprint is incomplete"])
      + (if forall p :: p in inv.profiles ==> Attributed(p) then []
         else ["compiler type or local impl has no attributable source/invocation anchor"]);
    var complete := missing == [] && inv.profiles != [];
    Confidence(complete, !complete, "compiler_type_inventory", |inv.profiles|, None, missing)
  }

  function TypeCount(ps: seq<Profile>): nat {
    if ps == [] then 0 else |ps[0].types| + TypeCount(ps[1..])
  }

  function CompleteCaptures(ps: seq<Profile>): nat {
    if ps == [] then 0
    else
      (if ps[0].architecture.Some? && Capture.MissingEvidence(ps[0].architecture.value) == [] then 1 else 0)
      + CompleteCaptures(ps[1..])
  }

  function MakeReport(inv: Inventory, fingerprintComplete: bool, h: ContextHash): Report {
    var confidence := TypeConfidence(inv, fingerprintComplete);
    Report("rustc-hir", 1, inv.requestedScope, inv.reasons,
           Summary(confidence.complete, |inv.profiles|, TypeCount(inv.profiles), Some(CompleteCaptures(inv.profiles))),
           inv.profiles, inv.expected, Some(ContextGraph.Project(inv.profiles, h)), confidence)
  }

  // ----- What coverage, confidence and counts say -----

  ghost predicate Captures(p: Profile, u: Unit) {
    p.manifestDir == u.manifestDir && p.sourceRoot == u.sourceRoot && p.test == u.test
  }

  ghost predicate OnlyCapture(ps: seq<Profile>, u: Unit, i: int) {
    && 0 <= i < |ps| && Captures(ps[i], u)
    && forall j :: 0 <= j < |ps| && Captures(ps[j], u) ==> j == i
  }

  ghost predicate IsExpected(p: Profile, expected: seq<Unit>) {
    exists u :: u in expected && Captures(p, u)
  }

  ghost predicate CapturedOnce(ps: seq<Profile>, u: Unit) {
    exists i :: OnlyCapture(ps, u, i)
  }

  lemma CapturesMeans(p: Profile, u: Unit, expected: seq<Unit>)
    ensures Captures(p, u) <==> UnitOf(p) == u
    ensures IsExpected(p, expected) <==> UnitOf(p) in expected
  {
    assert Captures(p, UnitOf(p));
  }

  /** Coverage means that there is something to capture and that the captured profiles and the expected contexts
      correspond one to one. */
  lemma CoveredMeans(ps: seq<Profile>, expected: seq<Unit>)
    ensures Covered(ps, expected) <==>
            && expected != []
            && (forall p :: p in ps ==> IsExpected(p, expected))
            && (forall u :: u in expected ==> CapturedOnce(ps, u))
  {
    forall p: Profile, u: Unit
      ensures Captures(p, u) <==> UnitOf(p) == u
      ensures IsExpected(p, expected) <==> UnitOf(p) in expected
    {
      CapturesMeans(p, u, expected);
    }
    if Covered(ps, expected) {
      forall u | u in expected ensures CapturedOnce(ps, u) {
        var p :| p in ps && UnitOf(p) == u;
        var i :| 0 <= i < |ps| && ps[i] == p;
        assert OnlyCapture(ps, u, i);
      }
    }
    if && expected != [] && (forall p :: p in ps ==> IsExpected(p, expected))
       && forall u :: u in expected ==> CapturedOnce(ps, u) {
      ContextsApart(ps, expected);
      forall u | u in expected ensures exists p :: p in ps && UnitOf(p) == u {
        var i :| OnlyCapture(ps, u, i);
        assert ps[i] in ps;
      }
      forall i | 0 <= i < |ps| ensures UnitOf(ps[i]) in expected { assert ps[i] in ps; }
    }
  }

  lemma ContextsApart(ps: seq<Profile>, expected: seq<Unit>)
    requires forall u :: u in expected ==> CapturedOnce(ps, u)
    ensures forall i, j :: 0 <= i < j < |ps| && UnitOf(ps[i]) in expected ==> UnitOf(ps[i]) != UnitOf(ps[j])
  {
    forall i, j | 0 <= i < j < |ps| && UnitOf(ps[i]) in expected ensures UnitOf(ps[i]) != UnitOf(ps[j]) {
      var k :| OnlyCapture(ps, UnitOf(ps[i]), k);
      assert Captures(ps[i], UnitOf(ps[i]));
    }
  }

  /** Types are known completely exactly when nothing failed, the inputs are known, something was captured, and every
      type and every impl of a local type has a place. */
  lemma ConfidenceMeans(inv: Inventory, fingerprintComplete: bool)
    ensures var c := TypeConfidence(inv, fingerprintComplete);
            && (c.complete <==>
                  && inv.reasons == [] && fingerprintComplete && inv.profiles != []
                  && (forall p, t :: p in inv.profiles && t in p.types ==> t.origin.location.Some?)
                  && (forall p, i :: p in inv.profiles && i in p.impls && i.ownerId.Some? ==> i.origin.location.Some?))
            && c.partial == !c.complete && c.contexts == |inv.profiles|
  {
  }

  /** The counts of a report add up over its profiles; a capture counts as complete when it misses no evidence. */
  lemma {:induction false} CountsMean(ps: seq<Profile>, p: Profile)
    ensures TypeCount([]) == 0 && TypeCount(ps + [p]) == TypeCount(ps) + |p.types|
    ensures CompleteCaptures([]) == 0
    ensures CompleteCaptures(ps + [p]) == CompleteCaptures(ps)
            + match p.architecture { case Some(c) => if Capture.MissingEvidence(c) == [] then 1 else 0 case None => 0 }
  {
    if ps == [] {
      assert ps + [p] == [p] && [p][0] == p && [p][1..] == [];
      assert TypeCount([p]) == |p.types| + TypeCount([]);
    } else {
      assert (ps + [p])[1..] == ps[1..] + [p];
      CountsMean(ps[1..], p);
    }
  }

  // ----- Checking a report -----

  ghost predicate ContextIdsDistinct(ps: seq<Profile>, h: ContextHash) {
    forall i, j :: 0 <= i < j < |ps| ==> ps[i].ContextId(h) != ps[j].ContextId(h)
  }

  ghost predicate ReportOk(r: Report, h: ContextHash) {
    && r.backend == "rustc-hir" && r.modelVersion == 1
    && (forall i, j :: 0 <= i < j < |r.expected| ==> r.expected[i] != r.expected[j])
    && ((r.profiles == [] && r.expected == []) || Covered(r.profiles, r.expected))
    && (forall p :: p in r.profiles ==> ProfileOk(p))
    && ContextIdsDistinct(r.profiles, h)
    && (r.graphs.Some? ==> r.graphs.value == ContextGraph.Project(r.profiles, h))
    && r.confidence.complete != r.confidence.partial
    && (r.confidence.complete ==> r.profiles != [] && forall p :: p in r.profiles ==> Attributed(p))
    && r.summary.typeCount == TypeCount(r.profiles)
    && (r.summary.completeCaptures.Some? ==> r.summary.completeCaptures.value == CompleteCaptures(r.profiles))
    && r.summary.contextCount == |r.profiles|
    && r.summary.complete == r.confidence.complete
  }

  ghost function ContextIds(ps: seq<Profile>, h: ContextHash): set<string> {
    if ps == [] then {} else ContextIds(ps[..|ps| - 1], h) + {ps[|ps| - 1].ContextId(h)}
  }

  lemma {:induction false} ContextListed(ps: seq<Profile>, h: ContextHash, id: string)
    ensures id in ContextIds(ps, h) <==> exists k :: 0 <= k < |ps| && ps[k].ContextId(h) == id
  {
    if ps != [] {
      ContextListed(ps[..|ps| - 1], h, id);
    }
  }

  lemma ContextsSoFar(ps: seq<Profile>, h: ContextHash, i: nat)
    requires i < |ps|
    ensures ContextIdsDistinct(ps[..i + 1], h) <==>
              ContextIdsDistinct(ps[..i], h) && ps[i].ContextId(h) !in ContextIds(ps[..i], h)
    ensures ContextIds(ps[..i + 1], h) == ContextIds(ps[..i], h) + {ps[i].ContextId(h)}
    ensures ContextIdsDistinct(ps, h) ==> ContextIdsDistinct(ps[..i + 1], h)
  {
    assert ps[..i + 1][..i] == ps[..i];
    ContextListed(ps[..i], h, ps[i].ContextId(h));
  }

  /** The first `n` profiles are valid and their contexts distinct. */
  ghost predicate OkSoFar(ps: seq<Profile>, n: nat, h: ContextHash) {
    n <= |ps| && (forall k :: 0 <= k < n ==> ProfileOk(ps[k])) && ContextIdsDistinct(ps[..n], h)
  }

  lemma OkBefore(ps: seq<Profile>, n: nat, h: ContextHash)
    requires n <= |ps|
    ensures OkSoFar(ps, |ps|, h) ==> OkSoFar(ps, n, h)
    ensures OkSoFar(ps, |ps|, h) <==> (forall p :: p in ps ==> ProfileOk(p)) && ContextIdsDistinct(ps, h)
  {
    assert ps[..|ps|] == ps;
  }

  method ValidateNextProfile(ps: seq<Profile>, i: nat, contexts: set<string>, h: ContextHash)
    returns (ok: bool, contexts': set<string>)
    requires i < |ps| && contexts == ContextIds(ps[..i], h) && OkSoFar(ps, i, h)
    ensures ok <==> OkSoFar(ps, i + 1, h)
    ensures ok ==> contexts' == ContextIds(ps[..i + 1], h)
  {
    ContextsSoFar(ps, h, i);
    ok := ValidateProfile(ps[i]);
    ok := ok && ps[i].ContextId(h) !in contexts;
    contexts' := contexts + {ps[i].ContextId(h)};
  }

  method ValidateProfiles(ps: seq<Profile>, h: ContextHash) returns (ok: bool)
    ensures ok <==> OkSoFar(ps, |ps|, h)
  {
    var contexts: set<string> := {};
    for i := 0 to |ps|
      invariant OkSoFar(ps, i, h) && contexts == ContextIds(ps[..i], h)
    {
      OkBefore(ps, i + 1, h);
      ok, contexts := ValidateNextProfile(ps, i, contexts, h);
      if !ok {
        return false;
      }
    }
    return true;
  }

  method ValidateReport(r: Report, h: ContextHash) returns (ok: bool)
    ensures ok <==> ReportOk(r, h)
  {
    if r.backend != "rustc-hir" || r.modelVersion != 1 {
      return false;
    }
    if exists i, j :: 0 <= i < j < |r.expected| && r.expected[i] == r.expected[j] {
      return false;
    }
    if r.profiles != [] || r.expected != [] {
      var covered := ValidateCoverage(r.profiles, r.expected);
      if !covered {
        return false;
      }
    }
    OkBefore(r.profiles, |r.profiles|, h);
    var valid := ValidateProfiles(r.profiles, h);
    if !valid {
      return false;
    }
    if r.graphs.Some? && r.graphs.value != ContextGraph.Project(r.profiles, h) {
      return false;
    }
    if r.confidence.complete == r.confidence.partial {
      return false;
    }
    if r.confidence.complete && !(forall p :: p in r.profiles ==> Attributed(p)) {
      return false;
    }
    return
      && r.summary.typeCount == TypeCount(r.profiles)
      && (r.summary.completeCaptures.Some? ==> r.summary.completeCaptures.value == CompleteCaptures(r.profiles))
      && r.summary.contextCount == |r.profiles|
      && r.summary.complete == r.confidence.complete
      && (r.confidence.complete ==> r.profiles != []);
  }

  // ----- Producer and checker agree -----

  /** Valid profiles that cover the selection, with distinct identities; or nothing at all. */
  ghost predicate InventoryOk(inv: Inventory, h: ContextHash) {
    && ((inv.profiles == [] && inv.expected == []) || Covered(inv.profiles, inv.expected))
    && (forall p :: p in inv.profiles ==> ProfileOk(p))
    && ContextIdsDistinct(inv.profiles, h)
  }

  /** The report of an inventory passes the report check exactly when the inventory is valid. */
  lemma ReportAcceptedIff(inv: Inventory, fingerprintComplete: bool, h: ContextHash)
    requires IsUnitSet(inv.expected)
    ensures ReportOk(MakeReport(inv, fingerprintComplete, h), h) <==> InventoryOk(inv, h)
  {
    UnitsDistinct(inv.expected);
  }

  ghost predicate HashSeparates(ps: seq<Profile>, h: ContextHash) {
    forall p, q :: p in ps && q in ps && p.ContextId(h) == q.ContextId(h) ==> p.CompilerContext() == q.CompilerContext()
  }

  lemma UnitsSeparateContexts(ps: seq<Profile>, h: ContextHash)
    requires HashSeparates(ps, h)
    requires forall i, j :: 0 <= i < j < |ps| ==> UnitOf(ps[i]) != UnitOf(ps[j])
    ensures ContextIdsDistinct(ps, h)
  {
    forall i, j | 0 <= i < j < |ps| ensures ps[i].ContextId(h) != ps[j].ContextId(h) {
      assert ps[i] in ps && ps[j] in ps;
      assert UnitOf(ps[i]) != UnitOf(ps[j]);
      assert ps[i].CompilerContext() != ps[j].CompilerContext();
    }
  }

  /** What collection hands over, profiles validated one by one against the selection or nothing
      but a failure reason, makes an acceptable report as long as the hash tells the contexts apart. */
  lemma CollectedReportAccepted(inv: Inventory, fingerprintComplete: bool, h: ContextHash)
    requires IsUnitSet(inv.expected)
    requires (inv.profiles == [] && inv.expected == [])
          || (Covered(inv.profiles, inv.expected) && forall p :: p in inv.profiles ==> ProfileOk(p))
    requires HashSeparates(inv.profiles, h)
    ensures ReportOk(MakeReport(inv, fingerprintComplete, h), h)
  {
    UnitsSeparateContexts(inv.profiles, h);
    ReportAcceptedIff(inv, fingerprintComplete, h);
  }

  // ----- What acceptance does not establish -----

  ghost predicate Produced(r: Report, inv: Inventory, fingerprintComplete: bool, h: ContextHash) {
    IsUnitSet(inv.expected) && r == MakeReport(inv, fingerprintComplete, h)
  }

  /** The check does not read the capture failures of a report: a complete report stays acceptable and
      complete when some are added, and then no inventory produces it. */
  lemma FailuresPassAsComplete(r: Report, failures: seq<string>, h: ContextHash)
    requires ReportOk(r, h) && r.confidence.complete && failures != []
    ensures var altered := r.(captureFailures := failures);
            && ReportOk(altered, h) && altered.confidence.complete
            && forall inv, fingerprintComplete :: !Produced(altered, inv, fingerprintComplete, h)
  {
    var altered := r.(captureFailures := failures);
    forall inv, fingerprintComplete ensures !Produced(altered, inv, fingerprintComplete, h) {
      if Produced(altered, inv, fingerprintComplete, h) {
        FailuresForbidCompleteness(inv, fingerprintComplete);
      }
    }
  }

  lemma FailuresForbidCompleteness(inv: Inventory, fingerprintComplete: bool)
    ensures TypeConfidence(inv, fingerprintComplete).complete ==> inv.reasons == []
  {
    assert |TypeConfidence(inv, fingerprintComplete).missing| >= |inv.reasons|;
  }

  function ReportedInventory(r: Report): Inventory {
    Inventory(r.profiles, r.expected, r.captureFailures, r.requestedScope)
  }

  /** An accepted report is one some inventory produces exactly when its expected contexts are in set order,
      it carries its graphs and its capture count, and its confidence is the one its own contents give. */
  lemma AcceptedProducedIff(r: Report, h: ContextHash)
    requires ReportOk(r, h)
    ensures (exists inv, fingerprintComplete :: Produced(r, inv, fingerprintComplete, h)) <==>
              && IsUnitSet(r.expected) && r.graphs.Some? && r.summary.completeCaptures.Some?
              && (|| r.confidence == TypeConfidence(ReportedInventory(r), true)
                  || r.confidence == TypeConfidence(ReportedInventory(r), false))
  {
    forall inv, fingerprintComplete | Produced(r, inv, fingerprintComplete, h)
      ensures inv == ReportedInventory(r) && r.confidence == TypeConfidence(inv, fingerprintComplete)
    {
    }
    var inv := ReportedInventory(r);
    forall fingerprintComplete
      | && IsUnitSet(r.expected) && r.graphs.Some? && r.summary.completeCaptures.Some?
        && r.confidence == TypeConfidence(inv, fingerprintComplete)
      ensures Produced(r, inv, fingerprintComplete, h)
    {
    }
  }
}
