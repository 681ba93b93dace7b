/** The syntax module graph: dependency edges, why each is there, and its reverse (src/facts/graph.rs). */
module ModuleGraph {
  import opened Order
  import opened ModulePaths

  datatype Resolved = Resolved(rawPath: string, target: Option<string>, symbol: Option<string>, backend: string)

  datatype FileFacts = FileFacts(
    package: string, target: string, moduleId: string, moduleKey: string,
    dependencies: seq<string>, resolved: seq<Resolved>)

  /** One observed reason for an edge. */
  datatype Reason = Reason(source: string, target: string, backend: string, symbol: Option<string>)

  type Edge = (string, string)

  datatype Graph = Graph(
    dependencies: map<string, set<string>>, provenance: map<Edge, set<string>>, symbols: map<Edge, set<string>>)

  // ----- Identities -----

  /** A module id: package, target and module key. */
  predicate Qualified(fact: FileFacts) {
    fact.moduleId == fact.package + "::" + fact.target + "::" + fact.moduleKey
  }

  /** Every extracted file is given the package and target that compile it, and its module id, before
      anything else looks at it. */
  method AssignIds(facts: seq<FileFacts>, metadata: FileFacts -> (string, string)) returns (named: seq<FileFacts>)
    ensures |named| == |facts|
    ensures forall i :: 0 <= i < |facts| ==>
              && Qualified(named[i])
              && named[i] == facts[i].(package := metadata(facts[i]).0, target := metadata(facts[i]).1,
                                          moduleId := named[i].moduleId)
  {
    named := facts;
    for i := 0 to |facts|
      invariant |named| == |facts|
      invariant forall k :: i <= k < |facts| ==> named[k] == facts[k]
      invariant forall k :: 0 <= k < i ==>
                  && Qualified(named[k])
                  && named[k] == facts[k].(package := metadata(facts[k]).0, target := metadata(facts[k]).1,
                                              moduleId := named[k].moduleId)
    {
      var (package, target) := metadata(facts[i]);
      named := named[i := facts[i].(package := package, target := target,
                                          moduleId := package + "::" + target + "::" + facts[i].moduleKey)];
    }
  }

  // ----- The reasons a file gives -----

  predicate EndsWith(text: string, suffix: string) {
    |text| >= |suffix| && text[|text| - |suffix|..] == suffix
  }

  predicate IsProbe(symbol: Option<string>) {
    symbol.Some? && (EndsWith(symbol.value, "::use") || EndsWith(symbol.value, "::self") || EndsWith(symbol.value, "::super"))
  }

  predicate SameScope(a: FileFacts, b: FileFacts) {
    a.package == b.package && a.target == b.target
  }

  function Scoped(facts: seq<FileFacts>, fact: FileFacts): seq<FileFacts> {
    if facts == [] then []
    else if SameScope(facts[0], fact) then [facts[0]] + Scoped(facts[1..], fact) else Scoped(facts[1..], fact)
  }

  function Keys(facts: seq<FileFacts>): seq<string> {
    seq(|facts|, i requires 0 <= i < |facts| => facts[i].moduleKey)
  }

  /** The first file of the scope that carries a module key. */
  function FirstWithKey(scoped: seq<FileFacts>, key: string): Option<FileFacts> {
    if scoped == [] then None
    else if scoped[0].moduleKey == key then Some(scoped[0]) else FirstWithKey(scoped[1..], key)
  }

  function ResolvedReason(fact: FileFacts, r: Resolved): Option<Reason> {
    if r.target.None? || r.target.value == fact.moduleId || IsProbe(r.symbol) then None
    else Some(Reason(fact.moduleId, r.target.value, r.backend, r.symbol))
  }

  function RawPaths(resolved: seq<Resolved>): set<string> {
    if resolved == [] then {} else RawPaths(resolved[..|resolved| - 1]) + {resolved[|resolved| - 1].rawPath}
  }

  const FALLBACK: string := "syntax_fallback"

  /** Syntax speaks only for paths the resolver said nothing about. */
  function SyntaxReason(fact: FileFacts, scoped: seq<FileFacts>, raw: string): Option<Reason> {
    if raw in RawPaths(fact.resolved) then None
    else
      var key := Resolve(raw, fact.moduleKey, Keys(scoped));
      if key.None? || key.value == fact.moduleKey then None
      else
        var found := FirstWithKey(scoped, key.value);
        if found.None? then None else Some(Reason(fact.moduleId, found.value.moduleId, FALLBACK, None))
  }

  function ToSeq(reason: Option<Reason>): seq<Reason> {
    if reason.Some? then [reason.value] else []
  }

  function ResolvedBy(fact: FileFacts): Resolved -> Option<Reason> {
    (r: Resolved) => ResolvedReason(fact, r)
  }

  function WrittenBy(fact: FileFacts, scoped: seq<FileFacts>): string -> Option<Reason> {
    (raw: string) => SyntaxReason(fact, scoped, raw)
  }

  /** The reasons the items give, in order. */
  ghost function Gather<T>(of: T -> Option<Reason>, items: seq<T>): seq<Reason> {
    if items == [] then [] else Gather(of, items[..|items| - 1]) + ToSeq(of(items[|items| - 1]))
  }

  lemma GatherStep<T>(of: T -> Option<Reason>, items: seq<T>, i: nat, before: seq<Reason>)
    requires i < |items|
    ensures before + Gather(of, items[..i + 1]) == before + Gather(of, items[..i]) + ToSeq(of(items[i]))
  {
    assert items[..i + 1][..i] == items[..i];
  }

  lemma GatherAll<T>(of: T -> Option<Reason>, items: seq<T>, before: seq<Reason>)
    ensures before + Gather(of, items[..0]) == before
    ensures before + Gather(of, items[..|items|]) == before + Gather(of, items)
  {
    assert items[..|items|] == items;
  }

  ghost function ReasonsOf(fact: FileFacts, facts: seq<FileFacts>): seq<Reason> {
    Gather(ResolvedBy(fact), fact.resolved) + Gather(WrittenBy(fact, Scoped(facts, fact)), fact.dependencies)
  }

  ghost function GivenIn(facts: seq<FileFacts>): FileFacts -> seq<Reason> {
    (fact: FileFacts) => ReasonsOf(fact, facts)
  }

  ghost function AllGiven(of: FileFacts -> seq<Reason>, some: seq<FileFacts>): seq<Reason> {
    if some == [] then [] else AllGiven(of, some[..|some| - 1]) + of(some[|some| - 1])
  }

  ghost function Reasons(facts: seq<FileFacts>): seq<Reason> {
    AllGiven(GivenIn(facts), facts)
  }

  // ----- The graph the reasons make -----

  ghost predicate HasEdge(reasons: seq<Reason>, a: string, b: string) {
    exists r :: r in reasons && r.source == a && r.target == b
  }

  ghost predicate HasBackend(reasons: seq<Reason>, a: string, b: string, backend: string) {
    exists r :: r in reasons && r.source == a && r.target == b && r.backend == backend
  }

  ghost predicate HasSymbol(reasons: seq<Reason>, a: string, b: string, symbol: string) {
    exists r :: r in reasons && r.source == a && r.target == b && r.symbol == Some(symbol)
  }

  predicate Joined(dependencies: map<string, set<string>>, a: string, b: string) {
    a in dependencies && b in dependencies[a]
  }

  predicate Labelled(labels: map<Edge, set<string>>, a: string, b: string, text: string) {
    (a, b) in labels && text in labels[(a, b)]
  }

  /** The graph holds exactly the edges, backends and symbols some reason gives. */
  ghost predicate Built(g: Graph, sources: set<string>, reasons: seq<Reason>) {
    && g.dependencies.Keys == sources
    && (forall a, b :: Joined(g.dependencies, a, b) <==> HasEdge(reasons, a, b))
    && (forall a, b :: (a, b) in g.provenance <==> HasEdge(reasons, a, b))
    && (forall a, b, w :: Labelled(g.provenance, a, b, w) <==> HasBackend(reasons, a, b, w))
    && (forall a, b, s :: Labelled(g.symbols, a, b, s) <==> HasSymbol(reasons, a, b, s))
  }

  function WithLabel(labels: map<Edge, set<string>>, edge: Edge, text: string): map<Edge, set<string>> {
    labels[edge := (if edge in labels then labels[edge] else {}) + {text}]
  }

  lemma LabelMeaning(labels: map<Edge, set<string>>, edge: Edge, text: string, a: string, b: string, l: string)
    ensures Labelled(WithLabel(labels, edge, text), a, b, l) <==> Labelled(labels, a, b, l) || ((a, b) == edge && l == text)
    ensures (a, b) in WithLabel(labels, edge, text) <==> (a, b) in labels || (a, b) == edge
  {
  }

  lemma OneMoreReason(reasons: seq<Reason>, r: Reason, a: string, b: string, text: string)
    ensures HasEdge(reasons + [r], a, b) <==> HasEdge(reasons, a, b) || (r.source == a && r.target == b)
    ensures HasBackend(reasons + [r], a, b, text) <==>
              HasBackend(reasons, a, b, text) || (r.source == a && r.target == b && r.backend == text)
    ensures HasSymbol(reasons + [r], a, b, text) <==>
              HasSymbol(reasons, a, b, text) || (r.source == a && r.target == b && r.symbol == Some(text))
  {
    assert r in reasons + [r];
    assert forall x :: x in reasons + [r] <==> x in reasons || x == r;
  }

  method AddReason(g: Graph, r: Reason, ghost sources: set<string>, ghost reasons: seq<Reason>) returns (g': Graph)
    requires Built(g, sources, reasons) && r.source in g.dependencies
    ensures Built(g', sources, reasons + [r])
  {
    var edge := (r.source, r.target);
    g' := Graph(g.dependencies[r.source := g.dependencies[r.source] + {r.target}],
                WithLabel(g.provenance, edge, r.backend),
                if r.symbol.Some? then WithLabel(g.symbols, edge, r.symbol.value) else g.symbols);
    assert g'.dependencies.Keys == sources;
    forall a, b
      ensures Joined(g'.dependencies, a, b) <==> HasEdge(reasons + [r], a, b)
      ensures (a, b) in g'.provenance <==> HasEdge(reasons + [r], a, b)
    {
      OneMoreReason(reasons, r, a, b, "");
    }
    forall a, b, text
      ensures Labelled(g'.provenance, a, b, text) <==> HasBackend(reasons + [r], a, b, text)
      ensures Labelled(g'.symbols, a, b, text) <==> HasSymbol(reasons + [r], a, b, text)
    {
      OneMoreReason(reasons, r, a, b, text);
      LabelMeaning(g.provenance, edge, r.backend, a, b, text);
      if r.symbol.Some? { LabelMeaning(g.symbols, edge, r.symbol.value, a, b, text); }
    }
  }

  method RecordResolved(fact: FileFacts, g: Graph, ghost sources: set<string>, ghost reasons: seq<Reason>)
    returns (g': Graph, paths: set<string>)
    requires Built(g, sources, reasons) && fact.moduleId in g.dependencies
    ensures Built(g', sources, reasons + Gather(ResolvedBy(fact), fact.resolved))
    ensures paths == RawPaths(fact.resolved)
  {
    g', paths := g, {};
    ghost var of := ResolvedBy(fact);
    GatherAll(of, fact.resolved, reasons);
    for i := 0 to |fact.resolved|
      invariant Built(g', sources, reasons + Gather(of, fact.resolved[..i]))
      invariant paths == RawPaths(fact.resolved[..i])
    {
      paths := paths + {fact.resolved[i].rawPath};
      PathsStep(fact.resolved, i);
      GatherStep(of, fact.resolved, i, reasons);
      g' := AddIfAny(g', ResolvedReason(fact, fact.resolved[i]), sources, reasons + Gather(of, fact.resolved[..i]));
    }
    assert fact.resolved[..|fact.resolved|] == fact.resolved;
  }

  method AddIfAny(g: Graph, reason: Option<Reason>, ghost sources: set<string>, ghost reasons: seq<Reason>)
    returns (g': Graph)
    requires Built(g, sources, reasons) && (reason.Some? ==> reason.value.source in g.dependencies)
    ensures Built(g', sources, reasons + ToSeq(reason))
  {
    if reason.None? {
      assert reasons + [] == reasons;
      return g;
    }
    g' := AddReason(g, reason.value, sources, reasons);
  }

  lemma PathsStep(resolved: seq<Resolved>, i: nat)
    requires i < |resolved|
    ensures RawPaths(resolved[..i + 1]) == RawPaths(resolved[..i]) + {resolved[i].rawPath}
  {
    assert resolved[..i + 1][..i] == resolved[..i];
  }

  /** What one written path adds, looked up as the code does. */
  method SyntaxTarget(fact: FileFacts, scoped: seq<FileFacts>, keys: seq<string>, paths: set<string>, raw: string)
    returns (reason: Option<Reason>)
    requires keys == Keys(scoped) && paths == RawPaths(fact.resolved)
    ensures reason == SyntaxReason(fact, scoped, raw)
    ensures reason.Some? ==> reason.value.source == fact.moduleId
  {
    if raw in paths {
      return None;
    }
    var key := ResolveDependency(raw, fact.moduleKey, keys);
    if key.None? || key.value == fact.moduleKey {
      return None;
    }
    var found := FirstWithKey(scoped, key.value);
    if found.None? {
      return None;
    }
    return Some(Reason(fact.moduleId, found.value.moduleId, FALLBACK, None));
  }

  method RecordSyntax(fact: FileFacts, scoped: seq<FileFacts>, paths: set<string>, g: Graph,
                      ghost sources: set<string>, ghost reasons: seq<Reason>)
    returns (g': Graph)
    requires Built(g, sources, reasons) && fact.moduleId in g.dependencies && paths == RawPaths(fact.resolved)
    ensures Built(g', sources, reasons + Gather(WrittenBy(fact, scoped), fact.dependencies))
  {
    g' := g;
    var keys := Keys(scoped);
    ghost var of := WrittenBy(fact, scoped);
    GatherAll(of, fact.dependencies, reasons);
    for i := 0 to |fact.dependencies|
      invariant Built(g', sources, reasons + Gather(of, fact.dependencies[..i]))
    {
      var reason := SyntaxTarget(fact, scoped, keys, paths, fact.dependencies[i]);
      GatherStep(of, fact.dependencies, i, reasons);
      g' := AddIfAny(g', reason, sources, reasons + Gather(of, fact.dependencies[..i]));
    }
  }

  ghost function Ids(facts: seq<FileFacts>): set<string> {
    if facts == [] then {} else Ids(facts[..|facts| - 1]) + {facts[|facts| - 1].moduleId}
  }

  method BuildGraph(facts: seq<FileFacts>) returns (g: Graph, reverse: map<string, set<string>>)
    ensures Built(g, Ids(facts), Reasons(facts))
    ensures forall a, b :: Joined(reverse, b, a) <==> Joined(g.dependencies, a, b)
    ensures forall b :: b in reverse ==> reverse[b] != {}
  {
    g := Graph(map[], map[], map[]);
    ghost var of := GivenIn(facts);
    NothingBuilt();
    for i := 0 to |facts|
      invariant Built(g, Ids(facts[..i]), AllGiven(of, facts[..i]))
    {
      g := RecordDependencies(facts[i], facts, g, Ids(facts[..i]), AllGiven(of, facts[..i]));
      AllGivenStep(of, facts, i);
    }
    assert facts[..|facts|] == facts;
    reverse := ReverseIndex(g.dependencies);
  }

  lemma NothingBuilt()
    ensures Built(Graph(map[], map[], map[]), {}, [])
  {
  }

  lemma AllGivenStep(of: FileFacts -> seq<Reason>, facts: seq<FileFacts>, i: nat)
    requires i < |facts|
    ensures AllGiven(of, facts[..i + 1]) == AllGiven(of, facts[..i]) + of(facts[i])
    ensures Ids(facts[..i + 1]) == Ids(facts[..i]) + {facts[i].moduleId}
  {
    assert facts[..i + 1][..i] == facts[..i];
  }

  method RecordDependencies(fact: FileFacts, facts: seq<FileFacts>, g: Graph,
                            ghost sources: set<string>, ghost reasons: seq<Reason>)
    returns (g': Graph)
    requires Built(g, sources, reasons)
    ensures Built(g', sources + {fact.moduleId}, reasons + ReasonsOf(fact, facts))
  {
    ghost var more := sources + {fact.moduleId};
    g' := if fact.moduleId in g.dependencies then g else g.(dependencies := g.dependencies[fact.moduleId := {}]);
    assert Built(g', more, reasons) by {
      assert forall a, b :: Joined(g'.dependencies, a, b) <==> Joined(g.dependencies, a, b);
    }
    var paths;
    g', paths := RecordResolved(fact, g', more, reasons);
    ghost var found := Gather(ResolvedBy(fact), fact.resolved);
    ghost var written := Gather(WrittenBy(fact, Scoped(facts, fact)), fact.dependencies);
    g' := RecordSyntax(fact, Scoped(facts, fact), paths, g', more, reasons + found);
    assert reasons + (found + written) == reasons + found + written;
  }

  method ReverseIndex(dependencies: map<string, set<string>>) returns (reverse: map<string, set<string>>)
    ensures forall a, b :: Joined(reverse, b, a) <==> Joined(dependencies, a, b)
    ensures forall b :: b in reverse ==> reverse[b] != {}
  {
    reverse := map[];
    var sources := dependencies.Keys;
    while sources != {}
      invariant sources <= dependencies.Keys
      invariant forall a, b :: Joined(reverse, b, a) <==> Joined(dependencies, a, b) && a !in sources
      invariant forall b :: b in reverse ==> reverse[b] != {}
    {
      var source :| source in sources;
      sources := sources - {source};
      reverse := AddSource(reverse, source, dependencies[source]);
    }
  }

  method AddSource(reverse: map<string, set<string>>, source: string, targets: set<string>)
    returns (reverse': map<string, set<string>>)
    requires forall b :: b in reverse ==> reverse[b] != {}
    ensures forall a, b :: Joined(reverse', b, a) <==> Joined(reverse, b, a) || (a == source && b in targets)
    ensures forall b :: b in reverse' ==> reverse'[b] != {}
  {
    reverse' := reverse;
    var rest := targets;
    while rest != {}
      invariant rest <= targets
      invariant forall a, b :: Joined(reverse', b, a) <==>
                  Joined(reverse, b, a) || (a == source && b in targets && b !in rest)
      invariant forall b :: b in reverse' ==> reverse'[b] != {}
    {
      var target :| target in rest;
      rest := rest - {target};
      ghost var before := reverse';
      reverse' := reverse'[target := (if target in reverse' then reverse'[target] else {}) + {source}];
      forall a, b ensures Joined(reverse', b, a) <==> Joined(before, b, a) || (a == source && b == target) {
      }
    }
  }
}
