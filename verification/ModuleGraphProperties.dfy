/** What the edges of the syntax module graph mean, that none joins a module to itself, and how many there
    are (src/facts/graph.rs, src/facts/helpers.rs). */
module ModuleGraphProperties {
  import opened Order
  import opened ModulePaths
  import opened ModuleGraph

  // ----- Meaning -----

  lemma {:induction false} GatherMember<T>(of: T -> Option<Reason>, items: seq<T>, reason: Reason)
    ensures reason in Gather(of, items) <==> exists item :: item in items && of(item) == Some(reason)
  {
    if items != [] {
      var front, last := items[..|items| - 1], items[|items| - 1];
      GatherMember(of, front, reason);
      assert items == front + [last];
    }
  }

  lemma {:induction false} AllGivenMember(of: FileFacts -> seq<Reason>, facts: seq<FileFacts>, reason: Reason)
    ensures reason in AllGiven(of, facts) <==> exists fact :: fact in facts && reason in of(fact)
  {
    if facts != [] {
      var front, last := facts[..|facts| - 1], facts[|facts| - 1];
      AllGivenMember(of, front, reason);
      assert facts == front + [last];
    }
  }

  ghost predicate ResolverSays(fact: FileFacts, reason: Reason) {
    exists r :: r in fact.resolved && ResolvedReason(fact, r) == Some(reason)
  }

  ghost predicate SyntaxSays(fact: FileFacts, facts: seq<FileFacts>, reason: Reason) {
    exists raw :: raw in fact.dependencies && SyntaxReason(fact, Scoped(facts, fact), raw) == Some(reason)
  }

  /** A reason is recorded exactly when the resolver or, for paths it did not see, the syntax of some file
      gives it. */
  lemma ReasonRecordedIff(facts: seq<FileFacts>, reason: Reason)
    ensures reason in Reasons(facts) <==>
            exists fact :: fact in facts && (ResolverSays(fact, reason) || SyntaxSays(fact, facts, reason))
  {
    AllGivenMember(GivenIn(facts), facts, reason);
    forall fact ensures reason in GivenIn(facts)(fact) <==>
                        ResolverSays(fact, reason) || SyntaxSays(fact, facts, reason) {
      GatherMember(ResolvedBy(fact), fact.resolved, reason);
      GatherMember(WrittenBy(fact, Scoped(facts, fact)), fact.dependencies, reason);
    }
  }

  // ----- Edges, in terms of the files alone -----

  /** The resolver names another module as what the written path leads to; that a path was only probed does not count. */
  ghost predicate ResolverJoins(fact: FileFacts, r: Resolved, b: string) {
    && r in fact.resolved && r.target == Some(b) && b != fact.moduleId
    && !(exists module' :: r.symbol in {Some(module' + "::use"), Some(module' + "::self"), Some(module' + "::super")})
  }

  /** A written path the resolver says nothing about leads, by syntax, to another module of the same package and
      target; `keys` are the module keys there. */
  ghost predicate SyntaxJoins(fact: FileFacts, other: FileFacts, raw: string, keys: seq<string>) {
    && raw in fact.dependencies && (forall r :: r in fact.resolved ==> r.rawPath != raw)
    && other.package == fact.package && other.target == fact.target && other.moduleKey != fact.moduleKey
    && Resolve(raw, fact.moduleKey, keys) == Some(other.moduleKey)
  }

  ghost predicate KeysThere(keys: seq<string>, facts: seq<FileFacts>, fact: FileFacts) {
    forall key :: key in keys <==>
      exists other :: other in facts && other.package == fact.package && other.target == fact.target && other.moduleKey == key
  }

  lemma SuffixMeans(text: string, suffix: string)
    ensures EndsWith(text, suffix) <==> exists front :: text == front + suffix
  {
    if EndsWith(text, suffix) {
      assert text == text[..|text| - |suffix|] + suffix;
    }
  }

  lemma ProbeMeans(symbol: Option<string>)
    ensures IsProbe(symbol) <==>
            exists module' :: symbol in {Some(module' + "::use"), Some(module' + "::self"), Some(module' + "::super")}
  {
    if symbol.Some? {
      SuffixMeans(symbol.value, "::use");
      SuffixMeans(symbol.value, "::self");
      SuffixMeans(symbol.value, "::super");
    }
  }

  lemma {:induction false} ScopedIff(facts: seq<FileFacts>, fact: FileFacts, found: FileFacts)
    ensures found in Scoped(facts, fact) <==>
            found in facts && found.package == fact.package && found.target == fact.target
  {
    if facts != [] {
      assert facts == [facts[0]] + facts[1..];
      ScopedIff(facts[1..], fact, found);
    }
  }

  lemma KeysListed(facts: seq<FileFacts>, fact: FileFacts)
    ensures KeysThere(Keys(Scoped(facts, fact)), facts, fact)
  {
    var scoped := Scoped(facts, fact);
    forall key ensures key in Keys(scoped) <==>
      exists other :: other in facts && other.package == fact.package && other.target == fact.target && other.moduleKey == key
    {
      if key in Keys(scoped) {
        var i :| 0 <= i < |scoped| && scoped[i].moduleKey == key;
        ScopedIff(facts, fact, scoped[i]);
      }
      if other :| other in facts && other.package == fact.package && other.target == fact.target && other.moduleKey == key {
        ScopedIff(facts, fact, other);
        var i :| 0 <= i < |scoped| && scoped[i] == other;
        assert Keys(scoped)[i] == key;
      }
    }
  }

  lemma {:induction false} RawListed(resolved: seq<Resolved>, raw: string)
    ensures raw in RawPaths(resolved) <==> exists r :: r in resolved && r.rawPath == raw
  {
    if resolved != [] {
      var front, last := resolved[..|resolved| - 1], resolved[|resolved| - 1];
      assert resolved == front + [last];
      RawListed(front, raw);
    }
  }

  lemma {:induction false} KeyFound(scoped: seq<FileFacts>, key: string)
    ensures FirstWithKey(scoped, key).Some? <==> exists f :: f in scoped && f.moduleKey == key
  {
    if scoped != [] {
      assert scoped == [scoped[0]] + scoped[1..];
      KeyFound(scoped[1..], key);
    }
  }

  lemma SameKeySameId(a: FileFacts, b: FileFacts)
    requires Qualified(a) && Qualified(b) && SameScope(a, b) && a.moduleKey == b.moduleKey
    ensures a.moduleId == b.moduleId
  {
  }

  lemma SyntaxReasonMeans(facts: seq<FileFacts>, fact: FileFacts, raw: string, b: string)
    requires fact in facts && (forall f :: f in facts ==> Qualified(f)) && raw in fact.dependencies
    ensures SyntaxReason(fact, Scoped(facts, fact), raw) == Some(Reason(fact.moduleId, b, "syntax_fallback", None)) <==>
            exists other :: other in facts && other.moduleId == b && SyntaxJoins(fact, other, raw, Keys(Scoped(facts, fact)))
    ensures SyntaxReason(fact, Scoped(facts, fact), raw).Some? ==>
            exists c :: SyntaxReason(fact, Scoped(facts, fact), raw) == Some(Reason(fact.moduleId, c, "syntax_fallback", None))
  {
    var scoped := Scoped(facts, fact);
    var key := Resolve(raw, fact.moduleKey, Keys(scoped));
    RawListed(fact.resolved, raw);
    if key.Some? {
      KeyFound(scoped, key.value);
      if FirstWithKey(scoped, key.value).Some? {
        FirstFound(scoped, key.value);
        var found := FirstWithKey(scoped, key.value).value;
        ScopedIff(facts, fact, found);
        forall other | other in facts && SyntaxJoins(fact, other, raw, Keys(scoped)) ensures other.moduleId == found.moduleId {
          SameKeySameId(other, found);
        }
      }
      forall other | other in facts && SyntaxJoins(fact, other, raw, Keys(scoped)) ensures other in scoped {
        ScopedIff(facts, fact, other);
      }
    }
  }

  lemma ResolverReasonMeans(fact: FileFacts, r: Resolved, b: string)
    requires r in fact.resolved
    ensures (ResolvedReason(fact, r).Some? && ResolvedReason(fact, r).value.target == b) <==> ResolverJoins(fact, r, b)
    ensures ResolverJoins(fact, r, b) ==> ResolvedReason(fact, r) == Some(Reason(fact.moduleId, b, r.backend, r.symbol))
  {
    ProbeMeans(r.symbol);
  }

  /** The resolver of some file joins the two modules. */
  ghost predicate ResolvedEdge(facts: seq<FileFacts>, a: string, b: string, backend: string) {
    exists fact, r :: fact in facts && fact.moduleId == a && ResolverJoins(fact, r, b) && r.backend == backend
  }

  ghost predicate NamedEdge(facts: seq<FileFacts>, a: string, b: string, symbol: string) {
    exists fact, r :: fact in facts && fact.moduleId == a && ResolverJoins(fact, r, b) && r.symbol == Some(symbol)
  }

  /** The syntax of some file does. */
  ghost predicate WrittenEdge(facts: seq<FileFacts>, a: string, b: string) {
    exists fact, other, raw ::
      fact in facts && fact.moduleId == a && other in facts && other.moduleId == b
      && SyntaxJoins(fact, other, raw, Keys(Scoped(facts, fact)))
  }

  lemma ReasonMeans(facts: seq<FileFacts>, reason: Reason)
    requires (forall f :: f in facts ==> Qualified(f)) && reason in Reasons(facts)
    ensures || (reason.backend == "syntax_fallback" && reason.symbol == None && WrittenEdge(facts, reason.source, reason.target))
            || (&& ResolvedEdge(facts, reason.source, reason.target, reason.backend)
                && (reason.symbol.Some? ==> NamedEdge(facts, reason.source, reason.target, reason.symbol.value)))
  {
    ReasonRecordedIff(facts, reason);
    var fact :| fact in facts && (ResolverSays(fact, reason) || SyntaxSays(fact, facts, reason));
    if ResolverSays(fact, reason) {
      var r :| r in fact.resolved && ResolvedReason(fact, r) == Some(reason);
      ResolverReasonMeans(fact, r, reason.target);
    } else {
      var raw :| raw in fact.dependencies && SyntaxReason(fact, Scoped(facts, fact), raw) == Some(reason);
      SyntaxReasonMeans(facts, fact, raw, reason.target);
    }
  }

  lemma ResolvedRecorded(facts: seq<FileFacts>, fact: FileFacts, r: Resolved, b: string)
    requires fact in facts && ResolverJoins(fact, r, b)
    ensures Reason(fact.moduleId, b, r.backend, r.symbol) in Reasons(facts)
  {
    ResolverReasonMeans(fact, r, b);
    var reason := Reason(fact.moduleId, b, r.backend, r.symbol);
    assert ResolverSays(fact, reason);
    ReasonRecordedIff(facts, reason);
  }

  lemma WrittenRecorded(facts: seq<FileFacts>, fact: FileFacts, other: FileFacts, raw: string)
    requires (forall f :: f in facts ==> Qualified(f)) && fact in facts && other in facts
    requires SyntaxJoins(fact, other, raw, Keys(Scoped(facts, fact)))
    ensures Reason(fact.moduleId, other.moduleId, "syntax_fallback", None) in Reasons(facts)
  {
    SyntaxReasonMeans(facts, fact, raw, other.moduleId);
    var reason := Reason(fact.moduleId, other.moduleId, "syntax_fallback", None);
    assert SyntaxSays(fact, facts, reason);
    ReasonRecordedIff(facts, reason);
  }

  /** Two modules are joined exactly when the resolver or, for paths it did not see, the syntax of a file leads from
      one to the other. */
  lemma EdgeIff(facts: seq<FileFacts>, g: Graph, a: string, b: string)
    requires Built(g, Ids(facts), Reasons(facts)) && forall f :: f in facts ==> Qualified(f)
    ensures Joined(g.dependencies, a, b) <==>
            (exists backend :: ResolvedEdge(facts, a, b, backend)) || WrittenEdge(facts, a, b)
  {
    if Joined(g.dependencies, a, b) {
      assert HasEdge(Reasons(facts), a, b);
      var reason :| reason in Reasons(facts) && reason.source == a && reason.target == b;
      ReasonMeans(facts, reason);
    }
    if backend :| ResolvedEdge(facts, a, b, backend) {
      var fact, r :| fact in facts && fact.moduleId == a && ResolverJoins(fact, r, b) && r.backend == backend;
      ResolvedRecorded(facts, fact, r, b);
      assert HasEdge(Reasons(facts), a, b);
    }
    if WrittenEdge(facts, a, b) {
      var fact, other, raw :|
        fact in facts && fact.moduleId == a && other in facts && other.moduleId == b
        && SyntaxJoins(fact, other, raw, Keys(Scoped(facts, fact)));
      WrittenRecorded(facts, fact, other, raw);
      assert HasEdge(Reasons(facts), a, b);
    }
  }

  /** An edge carries exactly the backends that gave it, the fallback among them if syntax did. */
  lemma BackendIff(facts: seq<FileFacts>, g: Graph, a: string, b: string, backend: string)
    requires Built(g, Ids(facts), Reasons(facts)) && forall f :: f in facts ==> Qualified(f)
    ensures Labelled(g.provenance, a, b, backend) <==>
            ResolvedEdge(facts, a, b, backend) || (backend == "syntax_fallback" && WrittenEdge(facts, a, b))
  {
    if Labelled(g.provenance, a, b, backend) {
      assert HasBackend(Reasons(facts), a, b, backend);
      var reason :| reason in Reasons(facts) && reason.source == a && reason.target == b && reason.backend == backend;
      ReasonMeans(facts, reason);
    }
    if ResolvedEdge(facts, a, b, backend) {
      var fact, r :| fact in facts && fact.moduleId == a && ResolverJoins(fact, r, b) && r.backend == backend;
      ResolvedRecorded(facts, fact, r, b);
      assert HasBackend(Reasons(facts), a, b, backend);
    }
    if backend == "syntax_fallback" && WrittenEdge(facts, a, b) {
      var fact, other, raw :|
        fact in facts && fact.moduleId == a && other in facts && other.moduleId == b
        && SyntaxJoins(fact, other, raw, Keys(Scoped(facts, fact)));
      WrittenRecorded(facts, fact, other, raw);
      assert HasBackend(Reasons(facts), a, b, backend);
    }
  }

  /** And exactly the symbols the resolver named for it. */
  lemma SymbolIff(facts: seq<FileFacts>, g: Graph, a: string, b: string, symbol: string)
    requires Built(g, Ids(facts), Reasons(facts)) && forall f :: f in facts ==> Qualified(f)
    ensures Labelled(g.symbols, a, b, symbol) <==> NamedEdge(facts, a, b, symbol)
  {
    if Labelled(g.symbols, a, b, symbol) {
      assert HasSymbol(Reasons(facts), a, b, symbol);
      var reason :| reason in Reasons(facts) && reason.source == a && reason.target == b && reason.symbol == Some(symbol);
      ReasonMeans(facts, reason);
    }
    if NamedEdge(facts, a, b, symbol) {
      var fact, r :| fact in facts && fact.moduleId == a && ResolverJoins(fact, r, b) && r.symbol == Some(symbol);
      ResolvedRecorded(facts, fact, r, b);
      assert HasSymbol(Reasons(facts), a, b, symbol);
    }
  }

  // ----- No self-edges -----

  lemma {:induction false} ScopedMember(facts: seq<FileFacts>, fact: FileFacts, found: FileFacts)
    requires found in Scoped(facts, fact)
    ensures found in facts && SameScope(found, fact)
  {
    if found != facts[0] || !SameScope(facts[0], fact) {
      ScopedMember(facts[1..], fact, found);
    }
  }

  lemma {:induction false} FirstFound(scoped: seq<FileFacts>, key: string)
    requires FirstWithKey(scoped, key).Some?
    ensures FirstWithKey(scoped, key).value in scoped && FirstWithKey(scoped, key).value.moduleKey == key
  {
    if scoped[0].moduleKey != key {
      FirstFound(scoped[1..], key);
    }
  }

  /** Within a scope, qualified ids tell keys apart. */
  lemma IdsSeparateKeys(a: FileFacts, b: FileFacts)
    requires Qualified(a) && Qualified(b) && SameScope(a, b) && a.moduleKey != b.moduleKey
    ensures a.moduleId != b.moduleId
  {
    var prefix := a.package + "::" + a.target + "::";
    assert (prefix + a.moduleKey)[|prefix|..] == a.moduleKey;
    assert (prefix + b.moduleKey)[|prefix|..] == b.moduleKey;
  }

  /** What syntax adds never leads back to its own module. */
  lemma SyntaxLeaves(facts: seq<FileFacts>, fact: FileFacts, raw: string)
    requires fact in facts && forall f :: f in facts ==> Qualified(f)
    requires SyntaxReason(fact, Scoped(facts, fact), raw).Some?
    ensures SyntaxReason(fact, Scoped(facts, fact), raw).value.target != fact.moduleId
  {
    var scoped := Scoped(facts, fact);
    var key := Resolve(raw, fact.moduleKey, Keys(scoped)).value;
    FirstFound(scoped, key);
    var found := FirstWithKey(scoped, key).value;
    ScopedMember(facts, fact, found);
    IdsSeparateKeys(fact, found);
  }

  /** The edge relation has no self-edges. */
  lemma NoSelfEdges(facts: seq<FileFacts>, g: Graph)
    requires Built(g, Ids(facts), Reasons(facts)) && forall f :: f in facts ==> Qualified(f)
    ensures forall a :: !Joined(g.dependencies, a, a) && (a, a) !in g.provenance
  {
    forall reason | reason in Reasons(facts) ensures reason.source != reason.target {
      ReasonRecordedIff(facts, reason);
      var fact :| fact in facts && (ResolverSays(fact, reason) || SyntaxSays(fact, facts, reason));
      if SyntaxSays(fact, facts, reason) {
        var raw :| raw in fact.dependencies && SyntaxReason(fact, Scoped(facts, fact), raw) == Some(reason);
        SyntaxLeaves(facts, fact, raw);
      }
    }
    forall a ensures !Joined(g.dependencies, a, a) && (a, a) !in g.provenance {
      assert !HasEdge(Reasons(facts), a, a);
    }
  }

  // ----- Totals -----

  /** The sum of the degrees of `keys`. */
  ghost function Degrees(neighbours: map<string, set<string>>, keys: set<string>): nat
    requires keys <= neighbours.Keys
  {
    if keys == {} then 0
    else |neighbours[Pick(keys)]| + Degrees(neighbours, keys - {Pick(keys)})
  }

  ghost function Pairs(a: string, bs: set<string>): set<Edge> {
    set b | b in bs :: (a, b)
  }

  lemma PairsMember(a: string, bs: set<string>, e: Edge)
    ensures e in Pairs(a, bs) <==> e.0 == a && e.1 in bs
  {
    if e.0 == a && e.1 in bs { assert e == (a, e.1); }
  }

  lemma {:induction false} PairsSize(a: string, bs: set<string>)
    ensures |Pairs(a, bs)| == |bs|
  {
    if bs != {} {
      var b := Pick(bs);
      PairsSize(a, bs - {b});
      assert Pairs(a, bs) == Pairs(a, bs - {b}) + {(a, b)};
    }
  }

  lemma {:induction false} DegreesCountEdges(neighbours: map<string, set<string>>, keys: set<string>, edges: set<Edge>)
    requires keys <= neighbours.Keys
    requires forall a, b :: (a, b) in edges <==> a in keys && b in neighbours[a]
    ensures Degrees(neighbours, keys) == |edges|
  {
    if keys == {} {
      forall e: Edge ensures e !in edges { assert e == (e.0, e.1); }
    } else {
      var a := Pick(keys);
      var here := Pairs(a, neighbours[a]);
      forall e: Edge ensures e in here <==> e.0 == a && e.1 in neighbours[a] { PairsMember(a, neighbours[a], e); }
      forall e: Edge ensures e in here ==> e in edges { assert e == (e.0, e.1); }
      DegreesCountEdges(neighbours, keys - {a}, edges - here);
      PairsSize(a, neighbours[a]);
      assert |edges| == |here| + |edges - here| by { assert edges == here + (edges - here); }
    }
  }

  ghost function Swapped(edges: set<Edge>): set<Edge> {
    set e | e in edges :: (e.1, e.0)
  }

  lemma {:induction false} SwappedSize(edges: set<Edge>)
    ensures |Swapped(edges)| == |edges|
    ensures forall a, b :: (b, a) in Swapped(edges) <==> (a, b) in edges
  {
    forall a, b ensures (b, a) in Swapped(edges) <==> (a, b) in edges {
      if (a, b) in edges { assert ((a, b).1, (a, b).0) == (b, a); }
    }
    if edges != {} {
      var e :| e in edges;
      SwappedSize(edges - {e});
      assert Swapped(edges) == Swapped(edges - {e}) + {(e.1, e.0)};
    }
  }

  /** Out-degrees, in-degrees and provenance entries all count the same edges. */
  lemma TotalsAgree(facts: seq<FileFacts>, g: Graph, reverse: map<string, set<string>>)
    requires Built(g, Ids(facts), Reasons(facts))
    requires forall a, b :: Joined(reverse, b, a) <==> Joined(g.dependencies, a, b)
    ensures forall a, b :: (a, b) in g.provenance <==> Joined(g.dependencies, a, b)
    ensures Degrees(g.dependencies, g.dependencies.Keys) == |g.provenance.Keys|
    ensures Degrees(reverse, reverse.Keys) == |g.provenance.Keys|
  {
    var edges := g.provenance.Keys;
    forall a, b ensures (a, b) in edges <==> Joined(g.dependencies, a, b) {
      assert (a, b) in g.provenance <==> HasEdge(Reasons(facts), a, b);
    }
    DegreesCountEdges(g.dependencies, g.dependencies.Keys, edges);
    SwappedSize(edges);
    forall a, b ensures (b, a) in Swapped(edges) <==> b in reverse && a in reverse[b] {
      assert (b, a) in Swapped(edges) <==> (a, b) in edges;
      assert Joined(reverse, b, a) <==> Joined(g.dependencies, a, b);
    }
    DegreesCountEdges(reverse, reverse.Keys, Swapped(edges));
  }
}
