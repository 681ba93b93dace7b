/** Joining impl blocks to the types they belong to, from syntax alone (src/facts/type_identity.rs). */
module TypeImpls {
  import opened Order
  import opened SuperPaths
  import Patterns

  datatype Impl = Impl(typeName: string, qualifiedTypeName: string, moduleKey: string, path: string, methods: nat)

  /** The syntax facts of one source file, compiled into one target of one package. */
  datatype FileFacts = FileFacts(
    package: string, target: string, types: seq<string>, limitations: seq<string>, impls: seq<Impl>)

  datatype TypeIdentity = TypeIdentity(package: string, target: string, name: string)

  /** An impl block together with the scope its file gives it. */
  datatype Use = Use(package: string, target: string, block: Impl)

  datatype Limitation =
    | FromExtractor(text: string)
    | DuplicateIdentity(identity: TypeIdentity)
    | UnresolvedOwner(use: Use)

  datatype ImplSummary = ImplSummary(methods: nat, blocks: nat, files: set<string>)

  // ----- The owner an impl block names -----

  function RootModules(moduleKey: string): seq<string> {
    if moduleKey == "lib" || moduleKey == "main" then [] else Patterns.Split(moduleKey)
  }

  function WithoutSelf(path: string): string {
    if "self::" <= path then path[6..] else path
  }

  function Candidate(path: string, moduleKey: string): Option<string> {
    if "crate::" <= path then Some(path[7..]) else Climb(RootModules(moduleKey), WithoutSelf(path))
  }

  method ImplCandidate(path: string, moduleKey: string) returns (candidate: Option<string>)
    ensures candidate == Candidate(path, moduleKey)
  {
    if "crate::" <= path {
      return Some(path[7..]);
    }
    candidate := ClimbPath(RootModules(moduleKey), WithoutSelf(path));
  }

  function WrittenName(block: Impl): string {
    if block.qualifiedTypeName == "" then block.typeName else block.qualifiedTypeName
  }

  function Identify(block: Impl, defined: set<string>): Option<string> {
    var candidate := Candidate(WrittenName(block), block.moduleKey);
    if candidate.None? then None
    else if candidate.value in defined then candidate
    else
      var inLib, inMain := "lib::" + candidate.value, "main::" + candidate.value;
      if inLib in defined && inMain !in defined then Some(inLib)
      else if inMain in defined && inLib !in defined then Some(inMain)
      else None
  }

  method ImplIdentity(block: Impl, defined: set<string>) returns (name: Option<string>)
    ensures name == Identify(block, defined)
  {
    var candidate := ImplCandidate(WrittenName(block), block.moduleKey);
    if candidate.None? {
      return None;
    }
    if candidate.value in defined {
      return candidate;
    }
    var roots := ["lib::" + candidate.value, "main::" + candidate.value];
    var matches: seq<string> := [];
    for i := 0 to |roots|
      invariant i == 0 ==> matches == []
      invariant i == 1 ==> matches == if roots[0] in defined then [roots[0]] else []
      invariant i == 2 ==> matches == (if roots[0] in defined then [roots[0]] else [])
                                      + (if roots[1] in defined then [roots[1]] else [])
    {
      if roots[i] in defined {
        matches := matches + [roots[i]];
      }
    }
    return if |matches| == 1 then Some(matches[0]) else None;
  }

  // ----- Declarations -----

  /** What the declared types make known: the identities there are, and those declared twice. */
  datatype Scope = Scope(defined: set<TypeIdentity>, ambiguous: set<TypeIdentity>)

  function Identities(fact: FileFacts): seq<TypeIdentity> {
    seq(|fact.types|, i requires 0 <= i < |fact.types| => TypeIdentity(fact.package, fact.target, fact.types[i]))
  }

  function Uses(fact: FileFacts): seq<Use> {
    seq(|fact.impls|, i requires 0 <= i < |fact.impls| => Use(fact.package, fact.target, fact.impls[i]))
  }

  function Declarations(facts: seq<FileFacts>): seq<TypeIdentity> {
    if facts == [] then []
    else Declarations(facts[..|facts| - 1]) + Identities(facts[|facts| - 1])
  }

  function AllUses(facts: seq<FileFacts>): seq<Use> {
    if facts == [] then [] else AllUses(facts[..|facts| - 1]) + Uses(facts[|facts| - 1])
  }

  /** Declared is every type of every file, in the package and target that compile the file. */
  lemma {:induction false} DeclarationsMean(facts: seq<FileFacts>, id: TypeIdentity)
    ensures id in Declarations(facts) <==>
            exists fact :: fact in facts && fact.package == id.package && fact.target == id.target && id.name in fact.types
  {
    if facts != [] {
      var front, last := facts[..|facts| - 1], facts[|facts| - 1];
      assert facts == front + [last];
      DeclarationsMean(front, id);
      if last.package == id.package && last.target == id.target && id.name in last.types {
        var i :| 0 <= i < |last.types| && last.types[i] == id.name;
        assert Identities(last)[i] == id;
      }
    }
  }

  lemma {:induction false} UsesMean(facts: seq<FileFacts>, use: Use)
    ensures use in AllUses(facts) <==>
            exists fact :: fact in facts && fact.package == use.package && fact.target == use.target && use.block in fact.impls
  {
    if facts != [] {
      var front, last := facts[..|facts| - 1], facts[|facts| - 1];
      assert facts == front + [last];
      UsesMean(front, use);
      if last.package == use.package && last.target == use.target && use.block in last.impls {
        var i :| 0 <= i < |last.impls| && last.impls[i] == use.block;
        assert Uses(last)[i] == use;
      }
    }
  }

  ghost function ScopeOf(declared: seq<TypeIdentity>): Scope {
    Scope(set id | id in declared, set id | id in declared && multiset(declared)[id] >= 2)
  }

  ghost function Names(scope: Scope, package: string, target: string): set<string> {
    set id | id in scope.defined && id.package == package && id.target == target :: id.name
  }

  /** The type an impl block belongs to, if it names one declared exactly once in its own package and
      target. */
  ghost function Owner(scope: Scope, use: Use): Option<TypeIdentity> {
    OwnerAmong(use, Names(scope, use.package, use.target), scope.ambiguous)
  }

  ghost function OwnerAmong(use: Use, defined: set<string>, ambiguous: set<TypeIdentity>): Option<TypeIdentity> {
    var name := Identify(use.block, defined);
    if name.None? then None
    else
      var id := TypeIdentity(use.package, use.target, name.value);
      if id in ambiguous then None else Some(id)
  }

  /** An owner is declared exactly once, in the block's own package and target, under the name the block
      writes or, from a crate root, under that name directly below `lib` or `main`. */
  lemma OwnerMeaning(declared: seq<TypeIdentity>, use: Use)
    ensures var owner := Owner(ScopeOf(declared), use);
            owner.Some? ==>
              && owner.value.package == use.package && owner.value.target == use.target
              && multiset(declared)[owner.value] == 1
              && var written := Candidate(WrittenName(use.block), use.block.moduleKey);
                 && written.Some?
                 && owner.value.name in {written.value, "lib::" + written.value, "main::" + written.value}
  {
    var scope := ScopeOf(declared);
    var owner := Owner(scope, use);
    if owner.Some? {
      assert owner.value in scope.defined;
      assert owner.value in declared;
    }
  }

  // ----- Which type an impl block refers to -----

  ghost predicate StepsOut(path: string, k: nat, rest: string) {
    path == Supers(k) + rest && !(SUPER <= rest)
  }

  lemma {:induction false} StepsExist(path: string) returns (k: nat, rest: string)
    ensures StepsOut(path, k, rest)
    decreases |path|
  {
    if SUPER <= path {
      k, rest := StepsExist(path[|SUPER|..]);
      k := k + 1;
      assert path == SUPER + path[|SUPER|..];
      assert SUPER + (Supers(k - 1) + rest) == (SUPER + Supers(k - 1)) + rest;
    } else {
      k, rest := 0, path;
      assert path == Supers(0) + path;
    }
  }

  ghost predicate RefersFrom(around: seq<string>, written: string, full: string) {
    if "crate::" <= written then written == "crate::" + full
    else RefersRelatively(around, if "self::" <= written then written[6..] else written, full)
  }

  ghost predicate RefersRelatively(around: seq<string>, relative: string, full: string) {
    exists k: nat, rest :: StepsOut(relative, k, rest) && LeftAfter(around, k, rest, full)
  }

  /** The name from the crate root that a block written in a module refers to: what follows `crate::`, or what is left
      of the module after the `super::` steps, followed by the rest. The crate roots contribute no segment. */
  ghost predicate Refers(block: Impl, full: string) {
    var written := if block.qualifiedTypeName != "" then block.qualifiedTypeName else block.typeName;
    RefersFrom(if block.moduleKey == "main" || block.moduleKey == "lib" then [] else Patterns.Split(block.moduleKey),
               written, full)
  }

  predicate LeftAfter(around: seq<string>, k: nat, rest: string, full: string) {
    k <= |around| && full == Patterns.Join(around[..|around| - k] + [rest])
  }

  lemma ClimbIff(around: seq<string>, path: string, full: string)
    ensures Climb(around, path) == Some(full) <==> RefersRelatively(around, path, full)
  {
    forall k: nat, rest | StepsOut(path, k, rest)
      ensures Climb(around, path) == Some(full) <==> LeftAfter(around, k, rest, full)
    {
      ClimbMeaning(around, k, rest);
    }
    var k, rest := StepsExist(path);
  }

  lemma RefersMeans(block: Impl, full: string)
    ensures Candidate(WrittenName(block), block.moduleKey) == Some(full) <==> Refers(block, full)
  {
    CandidateMeans(WrittenName(block), block.moduleKey, full);
  }

  lemma CandidateMeans(written: string, moduleKey: string, full: string)
    ensures Candidate(written, moduleKey) == Some(full) <==> RefersFrom(RootModules(moduleKey), written, full)
  {
    if "crate::" <= written {
      assert written == "crate::" + written[7..];
      assert written == "crate::" + full ==> written[7..] == full;
    } else {
      ClimbIff(RootModules(moduleKey), WithoutSelf(written), full);
    }
  }

  /** The declared name a block belongs to: the one it refers to, or the only one directly below a crate root. */
  ghost predicate Finds(declared: seq<TypeIdentity>, use: Use, name: string) {
    exists full :: Refers(use.block, full) && FindsAs(declared, use, full, name)
  }

  ghost predicate FindsAs(declared: seq<TypeIdentity>, use: Use, full: string, name: string) {
    if Declares(declared, use, full) then name == full
    else
      || (name == "lib::" + full && Declares(declared, use, name) && !Declares(declared, use, "main::" + full))
      || (name == "main::" + full && Declares(declared, use, name) && !Declares(declared, use, "lib::" + full))
  }

  predicate Declares(declared: seq<TypeIdentity>, use: Use, name: string) {
    TypeIdentity(use.package, use.target, name) in declared
  }

  lemma NamesDeclared(declared: seq<TypeIdentity>, use: Use, name: string)
    ensures name in Names(ScopeOf(declared), use.package, use.target) <==> Declares(declared, use, name)
  {
    assert TypeIdentity(use.package, use.target, name).name == name;
  }

  lemma IdentifyMeans(declared: seq<TypeIdentity>, use: Use, name: string)
    ensures Identify(use.block, Names(ScopeOf(declared), use.package, use.target)) == Some(name) <==>
            Finds(declared, use, name)
  {
    var defined := Names(ScopeOf(declared), use.package, use.target);
    forall n ensures n in defined <==> Declares(declared, use, n) { NamesDeclared(declared, use, n); }
    var candidate := Candidate(WrittenName(use.block), use.block.moduleKey);
    forall full ensures candidate == Some(full) <==> Refers(use.block, full) { RefersMeans(use.block, full); }
    if candidate.Some? {
      assert "lib::" + candidate.value != "main::" + candidate.value by {
        assert ("lib::" + candidate.value)[0] == 'l' && ("main::" + candidate.value)[0] == 'm';
      }
      assert Identify(use.block, defined) == Some(name) <==> FindsAs(declared, use, candidate.value, name);
    }
  }

  /** A type owns an impl block exactly when the block finds its name in its own package and target and the type is
      declared just once there. */
  lemma OwnerIff(declared: seq<TypeIdentity>, use: Use, id: TypeIdentity)
    ensures Owner(ScopeOf(declared), use) == Some(id) <==>
            && id.package == use.package && id.target == use.target
            && Finds(declared, use, id.name) && multiset(declared)[id] == 1
  {
    IdentifyMeans(declared, use, id.name);
    assert id in declared <==> multiset(declared)[id] >= 1;
    assert id.package == use.package && id.target == use.target ==> id == TypeIdentity(use.package, use.target, id.name);
  }

  ghost function OwnerIn(scope: Scope): Use -> Option<TypeIdentity> {
    (use: Use) => Owner(scope, use)
  }

  // ----- What the index must hold -----

  ghost function Attributed(own: Use -> Option<TypeIdentity>, uses: seq<Use>, id: TypeIdentity): seq<Use> {
    if uses == [] then []
    else
      var front, last := Attributed(own, uses[..|uses| - 1], id), uses[|uses| - 1];
      if own(last) == Some(id) then front + [last] else front
  }

  ghost function Unattributed(own: Use -> Option<TypeIdentity>, uses: seq<Use>): seq<Use> {
    if uses == [] then []
    else
      var front, last := Unattributed(own, uses[..|uses| - 1]), uses[|uses| - 1];
      if own(last).None? then front + [last] else front
  }

  ghost function Methods(uses: seq<Use>): nat {
    if uses == [] then 0 else Methods(uses[..|uses| - 1]) + uses[|uses| - 1].block.methods
  }

  ghost function Summarize(uses: seq<Use>): ImplSummary {
    ImplSummary(Methods(uses), |uses|, Files(uses))
  }

  ghost function Files(uses: seq<Use>): set<string> {
    if uses == [] then {} else Files(uses[..|uses| - 1]) + {uses[|uses| - 1].block.path}
  }

  ghost function Owners(own: Use -> Option<TypeIdentity>, uses: seq<Use>): set<TypeIdentity> {
    if uses == [] then {}
    else Owners(own, uses[..|uses| - 1]) + ToSet(own(uses[|uses| - 1]))
  }

  ghost function ToSet(owner: Option<TypeIdentity>): set<TypeIdentity> {
    if owner.Some? then {owner.value} else {}
  }

  ghost function Summaries(own: Use -> Option<TypeIdentity>, uses: seq<Use>): map<TypeIdentity, ImplSummary> {
    map id | id in Owners(own, uses) :: SummaryOf(own, uses, id)
  }

  ghost function Unresolved(own: Use -> Option<TypeIdentity>, uses: seq<Use>): set<Limitation> {
    if uses == [] then {}
    else
      var front, last := Unresolved(own, uses[..|uses| - 1]), uses[|uses| - 1];
      if own(last).None? then front + {UnresolvedOwner(last)} else front
  }

  lemma SummarizeMore(uses: seq<Use>, last: Use)
    ensures Summarize(uses + [last]) == Extended(Summarize(uses), last.block)
  {
    assert (uses + [last])[..|uses|] == uses;
  }

  lemma {:induction false} NobodysUses(own: Use -> Option<TypeIdentity>, uses: seq<Use>, id: TypeIdentity)
    ensures id in Owners(own, uses) <==> Attributed(own, uses, id) != []
  {
    if uses != [] {
      NobodysUses(own, uses[..|uses| - 1], id);
    }
  }

  ghost function Extended(summary: ImplSummary, block: Impl): ImplSummary {
    ImplSummary(summary.methods + block.methods, summary.blocks + 1, summary.files + {block.path})
  }

  lemma AttributedMore(own: Use -> Option<TypeIdentity>, uses: seq<Use>, last: Use, id: TypeIdentity)
    ensures Attributed(own, uses + [last], id) ==
            if own(last) == Some(id) then Attributed(own, uses, id) + [last] else Attributed(own, uses, id)
    ensures Owners(own, uses + [last]) == Owners(own, uses) + ToSet(own(last))
  {
    assert (uses + [last])[..|uses|] == uses;
  }

  ghost function SummaryOf(own: Use -> Option<TypeIdentity>, uses: seq<Use>, id: TypeIdentity): ImplSummary {
    Summarize(Attributed(own, uses, id))
  }

  lemma SummaryMore(own: Use -> Option<TypeIdentity>, uses: seq<Use>, last: Use, id: TypeIdentity)
    ensures SummaryOf(own, uses + [last], id) ==
            if own(last) == Some(id) then Extended(SummaryOf(own, uses, id), last.block) else SummaryOf(own, uses, id)
    ensures id !in Owners(own, uses) ==> SummaryOf(own, uses, id) == ImplSummary(0, 0, {})
  {
    AttributedMore(own, uses, last, id);
    NobodysUses(own, uses, id);
    SummarizeMore(Attributed(own, uses, id), last);
  }

  ghost function Recorded(
    before: map<TypeIdentity, ImplSummary>, owner: Option<TypeIdentity>, block: Impl): map<TypeIdentity, ImplSummary>
  {
    if owner.None? then before else before[owner.value := SummaryAfter(before, owner, block, owner.value)]
  }

  /** One more block extends one summary or the unresolved rest. */
  lemma SummariesMore(own: Use -> Option<TypeIdentity>, uses: seq<Use>, last: Use)
    ensures Summaries(own, uses + [last]) == Recorded(Summaries(own, uses), own(last), last.block)
  {
    var before, after := Summaries(own, uses), Summaries(own, uses + [last]);
    AttributedMore(own, uses, last, TypeIdentity("", "", ""));
    forall id | id in after
      ensures after[id] == SummaryAfter(before, own(last), last.block, id)
    {
      SummaryMore(own, uses, last, id);
    }
    UpdatedMap(before, after, own(last), last.block);
  }

  ghost function SummaryAfter(
    before: map<TypeIdentity, ImplSummary>, owner: Option<TypeIdentity>, block: Impl, id: TypeIdentity): ImplSummary
  {
    var summary := if id in before then before[id] else ImplSummary(0, 0, {});
    if owner == Some(id) then Extended(summary, block) else summary
  }

  lemma UpdatedMap(
    before: map<TypeIdentity, ImplSummary>, after: map<TypeIdentity, ImplSummary>, owner: Option<TypeIdentity>, block: Impl)
    requires after.Keys == before.Keys + ToSet(owner)
    requires forall id :: id in after ==> after[id] == SummaryAfter(before, owner, block, id)
    ensures after == Recorded(before, owner, block)
  {
    assert forall id :: id in after <==> id in before || owner == Some(id);
  }

  lemma UnresolvedMore(own: Use -> Option<TypeIdentity>, uses: seq<Use>, last: Use)
    ensures |Unattributed(own, uses + [last])| == |Unattributed(own, uses)| + if own(last).None? then 1 else 0
    ensures Unresolved(own, uses + [last]) ==
            if own(last).None? then Unresolved(own, uses) + {UnresolvedOwner(last)} else Unresolved(own, uses)
  {
    assert (uses + [last])[..|uses|] == uses;
  }

  function Texts(texts: seq<string>): set<Limitation> {
    if texts == [] then {} else Texts(texts[..|texts| - 1]) + {FromExtractor(texts[|texts| - 1])}
  }

  function Limits(facts: seq<FileFacts>): set<Limitation> {
    if facts == [] then {} else Limits(facts[..|facts| - 1]) + Texts(facts[|facts| - 1].limitations)
  }

  function Duplicates(ambiguous: set<TypeIdentity>): set<Limitation> {
    set id | id in ambiguous :: DuplicateIdentity(id)
  }

  // ----- Building the index -----

  type Definitions = map<(string, string), set<string>>

  ghost predicate DefinesOnly(definitions: Definitions, declared: seq<TypeIdentity>) {
    forall p, t, n :: ((p, t) in definitions && n in definitions[(p, t)]) <==> TypeIdentity(p, t, n) in declared
  }

  ghost predicate RepeatsOnly(ambiguous: set<TypeIdentity>, declared: seq<TypeIdentity>) {
    forall id :: id in ambiguous <==> multiset(declared)[id] >= 2
  }

  /** The declarations seen so far, as the two collections keep them. */
  ghost predicate Tracks(definitions: Definitions, ambiguous: set<TypeIdentity>, declared: seq<TypeIdentity>) {
    DefinesOnly(definitions, declared) && RepeatsOnly(ambiguous, declared)
  }

  method DefineOne(id: TypeIdentity, definitions: Definitions, ambiguous: set<TypeIdentity>,
                   ghost declared: seq<TypeIdentity>)
    returns (definitions': Definitions, ambiguous': set<TypeIdentity>)
    requires (id.package, id.target) in definitions && Tracks(definitions, ambiguous, declared)
    ensures Tracks(definitions', ambiguous', declared + [id]) && definitions'.Keys == definitions.Keys
  {
    var key := (id.package, id.target);
    assert id == TypeIdentity(id.package, id.target, id.name);
    forall other ensures multiset(declared + [id])[other] == multiset(declared)[other] + if other == id then 1 else 0 {
    }
    assert id.name in definitions[key] <==> id in declared;
    assert id in declared <==> multiset(declared)[id] >= 1;
    ambiguous' := if id.name in definitions[key] then ambiguous + {id} else ambiguous;
    definitions' := definitions[key := definitions[key] + {id.name}];
  }

  lemma OneMore<T>(prefix: seq<T>, items: seq<T>, j: nat)
    requires j < |items|
    ensures prefix + items[..j] + [items[j]] == prefix + items[..j + 1]
  {
  }

  lemma NoneYet<T>(prefix: seq<T>, items: seq<T>)
    ensures prefix + items[..0] == prefix
    ensures prefix + items[..|items|] == prefix + items
  {
    assert items[..|items|] == items;
  }

  method DefineTypes(fact: FileFacts, definitions: Definitions, ambiguous: set<TypeIdentity>,
                     ghost declared: seq<TypeIdentity>)
    returns (definitions': Definitions, ambiguous': set<TypeIdentity>)
    requires Tracks(definitions, ambiguous, declared)
    ensures Tracks(definitions', ambiguous', declared + Identities(fact))
    ensures definitions'.Keys == definitions.Keys + {(fact.package, fact.target)}
  {
    definitions' := OpenScope(fact, definitions, declared);
    ambiguous' := ambiguous;
    ghost var ids, seen := Identities(fact), declared;
    NoneYet(declared, ids);
    for j := 0 to |fact.types|
      invariant seen == declared + ids[..j] && Tracks(definitions', ambiguous', seen)
      invariant definitions'.Keys == definitions.Keys + {(fact.package, fact.target)}
    {
      definitions', ambiguous' := DefineOne(TypeIdentity(fact.package, fact.target, fact.types[j]),
                                            definitions', ambiguous', seen);
      OneMore(declared, ids, j);
      seen := seen + [ids[j]];
    }
  }

  method OpenScope(fact: FileFacts, definitions: Definitions, ghost declared: seq<TypeIdentity>)
    returns (definitions': Definitions)
    requires DefinesOnly(definitions, declared)
    ensures DefinesOnly(definitions', declared)
    ensures definitions'.Keys == definitions.Keys + {(fact.package, fact.target)}
  {
    var key := (fact.package, fact.target);
    definitions' := if key in definitions then definitions else definitions[key := {}];
  }

  lemma NothingTracked()
    ensures Tracks(map[], {}, [])
  {
  }

  lemma DeclarationsStep(facts: seq<FileFacts>, i: nat)
    requires i < |facts|
    ensures Declarations(facts[..i + 1]) == Declarations(facts[..i]) + Identities(facts[i])
  {
    assert facts[..i + 1][..i] == facts[..i];
  }

  method Define(facts: seq<FileFacts>) returns (definitions: Definitions, ambiguous: set<TypeIdentity>)
    ensures Tracks(definitions, ambiguous, Declarations(facts))
    ensures forall i :: 0 <= i < |facts| ==> (facts[i].package, facts[i].target) in definitions
  {
    definitions, ambiguous := map[], {};
    ghost var declared: seq<TypeIdentity> := [];
    NothingTracked();
    for i := 0 to |facts|
      invariant declared == Declarations(facts[..i]) && Tracks(definitions, ambiguous, declared)
      invariant forall j :: 0 <= j < i ==> (facts[j].package, facts[j].target) in definitions
    {
      definitions, ambiguous := DefineTypes(facts[i], definitions, ambiguous, declared);
      declared := declared + Identities(facts[i]);
      DeclarationsStep(facts, i);
    }
    assert facts[..|facts|] == facts;
  }

  lemma AmbiguousIffRepeated(ambiguous: set<TypeIdentity>, declared: seq<TypeIdentity>)
    requires RepeatsOnly(ambiguous, declared)
    ensures ambiguous == ScopeOf(declared).ambiguous
  {
    forall id ensures id in ambiguous <==> id in ScopeOf(declared).ambiguous {
      assert multiset(declared)[id] >= 2 ==> id in multiset(declared);
    }
  }

  lemma ScopeFromDefinitions(definitions: Definitions, ambiguous: set<TypeIdentity>, declared: seq<TypeIdentity>, use: Use)
    requires Tracks(definitions, ambiguous, declared)
    requires (use.package, use.target) in definitions
    ensures OwnerAmong(use, definitions[(use.package, use.target)], ambiguous) == Owner(ScopeOf(declared), use)
  {
    AmbiguousIffRepeated(ambiguous, declared);
    var scope := ScopeOf(declared);
    var names, known := Names(scope, use.package, use.target), definitions[(use.package, use.target)];
    forall n ensures n in known <==> n in names {
      if n in known { assert TypeIdentity(use.package, use.target, n) in scope.defined; }
    }
    assert known == names;
  }

  method CollectLimits(facts: seq<FileFacts>) returns (limits: set<Limitation>)
    ensures limits == Limits(facts)
  {
    limits := {};
    for i := 0 to |facts|
      invariant limits == Limits(facts[..i])
    {
      assert facts[..i + 1][..i] == facts[..i];
      limits := limits + Texts(facts[i].limitations);
    }
    assert facts[..|facts|] == facts;
  }

  class TypeImplIndex {
    var byType: map<TypeIdentity, ImplSummary>
    var unsupported: set<Limitation>
    var unresolved: nat

    /** The index after `uses` were recorded on top of the limitations `notes`. */
    ghost predicate Holds(own: Use -> Option<TypeIdentity>, uses: seq<Use>, notes: set<Limitation>)
      reads this
    {
      && byType == Summaries(own, uses)
      && unresolved == |Unattributed(own, uses)|
      && unsupported == notes + Unresolved(own, uses)
    }

    constructor (facts: seq<FileFacts>)
      ensures var scope := ScopeOf(Declarations(facts));
              Holds(OwnerIn(scope), AllUses(facts), Limits(facts) + Duplicates(scope.ambiguous))
    {
      byType, unresolved, unsupported := map[], 0, {};
      new;
      var definitions, ambiguous := Define(facts);
      var limits := CollectLimits(facts);
      unsupported := limits + Duplicates(ambiguous);
      ghost var notes := unsupported;
      ghost var own := OwnerIn(ScopeOf(Declarations(facts)));
      forall use: Use | (use.package, use.target) in definitions
        ensures own(use) == OwnerAmong(use, definitions[(use.package, use.target)], ambiguous)
      {
        ScopeFromDefinitions(definitions, ambiguous, Declarations(facts), use);
      }
      AmbiguousIffRepeated(ambiguous, Declarations(facts));
      RecordAll(facts, definitions, ambiguous, own, notes);
    }

    method RecordAll(facts: seq<FileFacts>, definitions: Definitions, ambiguous: set<TypeIdentity>,
                     ghost own: Use -> Option<TypeIdentity>, ghost notes: set<Limitation>)
      requires Holds(own, [], notes)
      requires forall i :: 0 <= i < |facts| ==> (facts[i].package, facts[i].target) in definitions
      requires forall use: Use :: (use.package, use.target) in definitions ==>
                 own(use) == OwnerAmong(use, definitions[(use.package, use.target)], ambiguous)
      modifies this
      ensures Holds(own, AllUses(facts), notes)
    {
      for i := 0 to |facts|
        invariant Holds(own, AllUses(facts[..i]), notes)
      {
        assert facts[..i + 1][..i] == facts[..i];
        RecordFile(facts[i], definitions[(facts[i].package, facts[i].target)], ambiguous,
                   own, AllUses(facts[..i]), notes);
      }
      assert facts[..|facts|] == facts;
    }

    method RecordFile(fact: FileFacts, defined: set<string>, ambiguous: set<TypeIdentity>,
                      ghost own: Use -> Option<TypeIdentity>, ghost uses: seq<Use>, ghost notes: set<Limitation>)
      requires Holds(own, uses, notes)
      requires forall use: Use :: use.package == fact.package && use.target == fact.target ==>
                 own(use) == OwnerAmong(use, defined, ambiguous)
      modifies this
      ensures Holds(own, uses + Uses(fact), notes)
    {
      ghost var blocks := Uses(fact);
      NoneYet(uses, blocks);
      for j := 0 to |fact.impls|
        invariant Holds(own, uses + blocks[..j], notes)
      {
        SummariesMore(own, uses + blocks[..j], blocks[j]);
        UnresolvedMore(own, uses + blocks[..j], blocks[j]);
        RecordImpl(Use(fact.package, fact.target, fact.impls[j]), defined, ambiguous);
        OneMore(uses, blocks, j);
      }
    }

    method RecordImpl(use: Use, defined: set<string>, ambiguous: set<TypeIdentity>)
      modifies this
      ensures var owner := OwnerAmong(use, defined, ambiguous);
              && byType == Recorded(old(byType), owner, use.block)
              && unresolved == old(unresolved) + (if owner.None? then 1 else 0)
              && unsupported == old(unsupported) + (if owner.None? then {UnresolvedOwner(use)} else {})
    {
      var name := ImplIdentity(use.block, defined);
      if name.Some? && TypeIdentity(use.package, use.target, name.value) !in ambiguous {
        var owner := TypeIdentity(use.package, use.target, name.value);
        var summary := if owner in byType then byType[owner] else ImplSummary(0, 0, {});
        byType := byType[owner := ImplSummary(summary.methods + use.block.methods, summary.blocks + 1,
                                              summary.files + {use.block.path})];
      } else {
        unresolved := unresolved + 1;
        unsupported := unsupported + {UnresolvedOwner(use)};
      }
    }

    /** `resolved_impl_blocks`: together with the unresolved ones, these are all the blocks. */
    method ResolvedBlocks(ghost own: Use -> Option<TypeIdentity>, ghost uses: seq<Use>, ghost notes: set<Limitation>)
      returns (resolved: nat)
      requires Holds(own, uses, notes)
      ensures resolved + unresolved == |uses|
    {
      resolved := 0;
      var rest := byType.Keys;
      while rest != {}
        invariant rest <= byType.Keys
        invariant resolved + BlocksOf(own, uses, rest) == BlocksOf(own, uses, byType.Keys)
      {
        var id :| id in rest;
        TakeOne(own, uses, rest, id);
        resolved := resolved + byType[id].blocks;
        rest := rest - {id};
      }
      BlocksConserved(own, uses, byType.Keys);
    }

    method Confidence(measured: bool, fingerprintComplete: bool) returns (c: TypeConfidence)
      ensures c.complete <==> measured && fingerprintComplete && unsupported == {}
      ensures c.limitations == unsupported && c.unresolved == unresolved
      ensures c.fingerprintMissing == !fingerprintComplete
    {
      c := TypeConfidence(measured && unsupported == {} && fingerprintComplete, unresolved, unsupported,
                          !fingerprintComplete);
    }
  }

  datatype TypeConfidence = TypeConfidence(
    complete: bool, unresolved: nat, limitations: set<Limitation>, fingerprintMissing: bool)

  // ----- Conservation -----

  ghost function BlocksOf(own: Use -> Option<TypeIdentity>, uses: seq<Use>, ids: set<TypeIdentity>): nat {
    if ids == {} then 0
    else |Attributed(own, uses, Pick(ids))| + BlocksOf(own, uses, ids - {Pick(ids)})
  }

  lemma {:induction false} TakeOne(own: Use -> Option<TypeIdentity>, uses: seq<Use>, ids: set<TypeIdentity>,
                                   id: TypeIdentity)
    requires id in ids
    ensures BlocksOf(own, uses, ids) == |Attributed(own, uses, id)| + BlocksOf(own, uses, ids - {id})
  {
    var first := Pick(ids);
    if first != id {
      TakeOne(own, uses, ids - {first}, id);
      TakeOne(own, uses, ids - {id}, first);
      assert ids - {first} - {id} == ids - {id} - {first};
    }
  }

  lemma {:induction false} BlocksMore(own: Use -> Option<TypeIdentity>, uses: seq<Use>, last: Use, ids: set<TypeIdentity>)
    ensures BlocksOf(own, uses + [last], ids) ==
            BlocksOf(own, uses, ids) + if own(last).Some? && own(last).value in ids then 1 else 0
  {
    if ids != {} {
      AttributedMore(own, uses, last, Pick(ids));
      BlocksMore(own, uses, last, ids - {Pick(ids)});
    }
  }

  /** Every impl block is attributed to exactly one type or unresolved. */
  lemma {:induction false} BlocksConserved(own: Use -> Option<TypeIdentity>, uses: seq<Use>, ids: set<TypeIdentity>)
    requires Owners(own, uses) <= ids
    ensures BlocksOf(own, uses, ids) + |Unattributed(own, uses)| == |uses|
  {
    if uses == [] {
      NoBlocks(own, ids);
    } else {
      var front, last := uses[..|uses| - 1], uses[|uses| - 1];
      assert uses == front + [last];
      BlocksConserved(own, front, ids);
      BlocksMore(own, front, last, ids);
    }
  }

  lemma {:induction false} NoBlocks(own: Use -> Option<TypeIdentity>, ids: set<TypeIdentity>)
    ensures BlocksOf(own, [], ids) == 0
  {
    if ids != {} { NoBlocks(own, ids - {Pick(ids)}); }
  }

  // ----- The meaning of a complete confidence -----

  lemma {:induction false} EveryUseAttributed(own: Use -> Option<TypeIdentity>, uses: seq<Use>)
    requires Unresolved(own, uses) == {}
    ensures forall u :: u in uses ==> own(u).Some?
    ensures Unattributed(own, uses) == []
  {
    if uses != [] {
      EveryUseAttributed(own, uses[..|uses| - 1]);
      assert uses == uses[..|uses| - 1] + [uses[|uses| - 1]];
    }
  }

  /** Without limitations, every impl block has an owner and no identity is declared twice. */
  lemma CompleteMeans(facts: seq<FileFacts>, index: TypeImplIndex)
    requires var scope := ScopeOf(Declarations(facts));
             index.Holds(OwnerIn(scope), AllUses(facts), Limits(facts) + Duplicates(scope.ambiguous))
    requires index.unsupported == {}
    ensures index.unresolved == 0
    ensures forall u :: u in AllUses(facts) ==> Owner(ScopeOf(Declarations(facts)), u).Some?
    ensures forall id :: multiset(Declarations(facts))[id] <= 1
    ensures Limits(facts) == {}
  {
    var declared := Declarations(facts);
    var scope := ScopeOf(declared);
    EveryUseAttributed(OwnerIn(scope), AllUses(facts));
    assert forall id :: id in scope.ambiguous ==> DuplicateIdentity(id) in Duplicates(scope.ambiguous);
    forall id ensures multiset(declared)[id] >= 2 ==> id in scope.ambiguous {
      assert multiset(declared)[id] >= 2 ==> id in multiset(declared);
    }
  }
}
