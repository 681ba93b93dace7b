/** One dependency graph per compilation context (src/compiler_inventory/architecture_graph.rs). */
module ContextGraph {
  import opened Order
  import opened Origins
  import opened Profiles
  import opened Capture

  datatype Node = Node(id: string, selector: string, contextId: Option<string>, modulePath: string,
                       packageName: Option<string>, origin: Option<Origin>)

  datatype Edge = Edge(source: string, target: string, observations: seq<Reference>)

  datatype Graph = Graph(contextId: string, modules: map<string, Node>, edges: seq<Edge>,
                         unresolved: seq<Reference>, missing: seq<string>)

  datatype Resolved = Found(node: Node) | Failed(reason: string)

  // ----- Resolving one endpoint -----

  function DisplayPath(path: string): string {
    if path == "" then "crate" else path
  }

  function NodeOf(p: Profile, m: Module, h: ContextHash): Node {
    Node(p.ContextId(h) + "::" + m.id, p.packageName + "::shared::" + DisplayPath(m.path),
         Some(p.ContextId(h)), m.path, Some(p.packageName), Some(m.origin))
  }

  /** Lookup in a map collected from the list: the last entry with the key wins. */
  function LastModule(ms: seq<Module>, id: string): Option<Module> {
    if ms == [] then None
    else if ms[|ms| - 1].id == id then Some(ms[|ms| - 1])
    else LastModule(ms[..|ms| - 1], id)
  }

  function LastDeclaration(ds: seq<Declaration>, id: string): Option<Declaration> {
    if ds == [] then None
    else if ds[|ds| - 1].id == id then Some(ds[|ds| - 1])
    else LastDeclaration(ds[..|ds| - 1], id)
  }

  function Owner(p: Profile, c: Capture, h: ContextHash, declarationId: string): Option<Node> {
    match LastDeclaration(c.declarations, declarationId)
    case None => None
    case Some(d) =>
      match LastModule(c.modules, d.moduleId)
      case None => None
      case Some(m) => Some(NodeOf(p, m, h))
  }

  function ProfilesOfCrate(ps: seq<Profile>, crateId: string): seq<Profile> {
    if ps == [] then []
    else
      (if ps[0].architecture.Some? && ps[0].architecture.value.crateId == crateId then [ps[0]] else [])
      + ProfilesOfCrate(ps[1..], crateId)
  }

  function FirstModuleAt(ms: seq<Module>, id: string, path: string): Option<Module> {
    if ms == [] then None
    else if ms[0].id == id && ms[0].path == path then Some(ms[0])
    else FirstModuleAt(ms[1..], id, path)
  }

  function ExternalTarget(ps: seq<Profile>, h: ContextHash, t: Target): Resolved
    requires t.External?
  {
    var matches := ProfilesOfCrate(ps, t.crateId);
    if matches == [] then
      Found(Node("external::" + t.crateId + "::" + t.moduleId,
                 "external::" + t.crateName + "::" + DisplayPath(t.modulePath), None, t.modulePath, None, None))
    else if |matches| > 1 then Failed("compiler crate identity matches multiple compilation contexts")
    else match matches[0].architecture
      case None => Failed("missing target architecture")
      case Some(c) =>
        match FirstModuleAt(c.modules, t.moduleId, t.modulePath)
        case None => Failed("compiler-linked target module is not inventoried")
        case Some(m) =>
          if exists d :: d in c.declarations && d.id == t.definitionId && d.moduleId != m.id then
            Failed("compiler-linked target declaration and module disagree")
          else Found(NodeOf(matches[0], m, h))
  }

  function TargetOf(p: Profile, c: Capture, ps: seq<Profile>, h: ContextHash, t: Target): Resolved {
    match t
    case Local(id) =>
      (match Owner(p, c, h, id) case Some(n) => Found(n) case None => Failed("unknown local endpoint"))
    case External(_, _, _, _, _) => ExternalTarget(ps, h, t)
    case Unknown(reason) => Failed(reason)
  }

  // ----- Where one reference lands -----

  datatype Landing =
    | OnEdge(source: Node, target: Node)
    | Inside(node: Node)
    | Unresolved(reason: string)

  function Land(p: Profile, c: Capture, ps: seq<Profile>, h: ContextHash, r: Reference): Landing {
    match (Owner(p, c, h, r.sourceId), TargetOf(p, c, ps, h, r.target))
    case (Some(s), Found(t)) => if s.id == t.id then Inside(t) else OnEdge(s, t)
    case (_, Failed(reason)) => Unresolved(reason)
    case (None, Found(_)) => Unresolved("unknown source declaration owner")
  }

  // ----- Accumulating the graph -----

  function Step(g: Graph, r: Reference, landing: Landing): Graph {
    match landing
    case Unresolved(reason) => g.(unresolved := g.unresolved + [r], missing := g.missing + [reason])
    case Inside(t) => g.(modules := g.modules[t.id := t])
    case OnEdge(s, t) => g.(modules := g.modules[t.id := t], edges := Observe(g.edges, s.id, t.id, r))
  }

  function Place(e: Edge): seq<string> {
    [e.source, e.target]
  }

  /** `edges.entry((source, target)).or_default().push(r)` on a BTreeMap, in iteration order. */
  function Observe(edges: seq<Edge>, s: string, t: string, r: Reference): seq<Edge> {
    if edges == [] || ListLess([s, t], Place(edges[0])) then [Edge(s, t, [r])] + edges
    else if Place(edges[0]) == [s, t] then [edges[0].(observations := edges[0].observations + [r])] + edges[1..]
    else [edges[0]] + Observe(edges[1..], s, t, r)
  }

  function ModuleNodes(p: Profile, ms: seq<Module>, h: ContextHash): map<string, Node> {
    if ms == [] then map[]
    else
      var n := NodeOf(p, ms[|ms| - 1], h);
      ModuleNodes(p, ms[..|ms| - 1], h)[n.id := n]
  }

  function Absorb(p: Profile, c: Capture, ps: seq<Profile>, h: ContextHash, refs: seq<Reference>): Graph {
    if refs == [] then
      Graph(p.ContextId(h), ModuleNodes(p, c.modules, h), [], [], MissingEvidence(c))
    else
      var r := refs[|refs| - 1];
      Step(Absorb(p, c, ps, h, refs[..|refs| - 1]), r, Land(p, c, ps, h, r))
  }

  function ProjectContext(p: Profile, ps: seq<Profile>, h: ContextHash): Graph {
    match p.architecture
    case None => Graph(p.ContextId(h), map[], [], [], ["adapter did not provide architecture capture"])
    case Some(c) =>
      var g := Absorb(p, c, ps, h, c.references);
      g.(missing := SortDedup(g.missing))
  }

  function Project(ps: seq<Profile>, h: ContextHash): seq<Graph> {
    seq(|ps|, i requires 0 <= i < |ps| => ProjectContext(ps[i], ps, h))
  }

  /** The projection loop computes ProjectContext. */
  method BuildContext(p: Profile, ps: seq<Profile>, h: ContextHash) returns (g: Graph)
    ensures g == ProjectContext(p, ps, h)
  {
    if p.architecture.None? {
      return Graph(p.ContextId(h), map[], [], [], ["adapter did not provide architecture capture"]);
    }
    var c := p.architecture.value;
    var modules, edges, unresolved, missing :=
      ModuleNodes(p, c.modules, h), [], [], MissingEvidence(c);
    for i := 0 to |c.references|
      invariant Graph(p.ContextId(h), modules, edges, unresolved, missing) == Absorb(p, c, ps, h, c.references[..i])
    {
      var r := c.references[i];
      assert c.references[..i + 1][..i] == c.references[..i];
      match (Owner(p, c, h, r.sourceId), TargetOf(p, c, ps, h, r.target))
      case (Some(source), Found(target)) =>
        modules := modules[target.id := target];
        if source.id != target.id {
          edges := Observe(edges, source.id, target.id, r);
        }
      case (_, Failed(reason)) =>
        missing := missing + [reason];
        unresolved := unresolved + [r];
      case (None, Found(_)) =>
        missing := missing + ["unknown source declaration owner"];
        unresolved := unresolved + [r];
    }
    assert c.references[..|c.references|] == c.references;
    return Graph(p.ContextId(h), modules, edges, unresolved, SortDedup(missing));
  }

  // ----- Shape of every graph -----

  ghost predicate EdgesSorted(edges: seq<Edge>) {
    forall i, j :: 0 <= i < j < |edges| ==> ListLess(Place(edges[i]), Place(edges[j]))
  }

  /** Edges in key order, never from a module to itself, never empty, both ends in the node table. */
  ghost predicate WellShaped(g: Graph) {
    && EdgesSorted(g.edges)
    && forall e :: e in g.edges ==>
         e.source != e.target && e.observations != [] && e.source in g.modules && e.target in g.modules
  }

  lemma {:induction false} ObserveMembers(edges: seq<Edge>, s: string, t: string, r: Reference)
    ensures forall e :: e in Observe(edges, s, t, r) ==> e in edges || (Place(e) == [s, t] && e.observations != [])
  {
    if edges != [] && !ListLess([s, t], Place(edges[0])) && Place(edges[0]) != [s, t] {
      ObserveMembers(edges[1..], s, t, r);
    }
  }

  lemma {:induction false} ObserveSorted(edges: seq<Edge>, s: string, t: string, r: Reference)
    requires EdgesSorted(edges)
    ensures EdgesSorted(Observe(edges, s, t, r))
  {
    if edges != [] {
      ListTrichotomy([s, t], Place(edges[0]));
      if ListLess([s, t], Place(edges[0])) {
        BeforeAll([s, t], edges);
        PrependSorted(Edge(s, t, [r]), edges);
      } else if Place(edges[0]) == [s, t] {
        PrependSorted(edges[0].(observations := edges[0].observations + [r]), edges[1..]);
      } else {
        var rest := Observe(edges[1..], s, t, r);
        ObserveSorted(edges[1..], s, t, r);
        ObserveMembers(edges[1..], s, t, r);
        FirstStays(Place(edges[0]), edges[1..], rest, [s, t]);
        PrependSorted(edges[0], rest);
      }
    }
  }

  lemma PrependSorted(e: Edge, rest: seq<Edge>)
    requires EdgesSorted(rest) && forall j :: 0 <= j < |rest| ==> ListLess(Place(e), Place(rest[j]))
    ensures EdgesSorted([e] + rest)
  {
  }

  lemma BeforeAll(place: seq<string>, edges: seq<Edge>)
    requires EdgesSorted(edges) && edges != [] && ListLess(place, Place(edges[0]))
    ensures forall j :: 0 <= j < |edges| ==> ListLess(place, Place(edges[j]))
  {
    forall j | 0 < j < |edges| ensures ListLess(place, Place(edges[j])) {
      ListTransitive(place, Place(edges[0]), Place(edges[j]));
    }
  }

  lemma FirstStays(first: seq<string>, tail: seq<Edge>, rest: seq<Edge>, place: seq<string>)
    requires forall k :: 0 <= k < |tail| ==> ListLess(first, Place(tail[k]))
    requires ListLess(first, place) && forall e :: e in rest ==> e in tail || Place(e) == place
    ensures forall j :: 0 <= j < |rest| ==> ListLess(first, Place(rest[j]))
  {
    forall j | 0 <= j < |rest| ensures ListLess(first, Place(rest[j])) {
      assert rest[j] in rest;
    }
  }

  lemma {:induction false} OwnedNode(p: Profile, ms: seq<Module>, h: ContextHash, id: string)
    requires LastModule(ms, id).Some?
    ensures NodeOf(p, LastModule(ms, id).value, h).id in ModuleNodes(p, ms, h)
  {
    if ms[|ms| - 1].id != id {
      OwnedNode(p, ms[..|ms| - 1], h, id);
    }
  }

  lemma {:induction false} AbsorbShape(p: Profile, c: Capture, ps: seq<Profile>, h: ContextHash, refs: seq<Reference>)
    ensures var g := Absorb(p, c, ps, h, refs);
            WellShaped(g) && ModuleNodes(p, c.modules, h).Keys <= g.modules.Keys
  {
    if refs != [] {
      var r := refs[|refs| - 1];
      var before := Absorb(p, c, ps, h, refs[..|refs| - 1]);
      AbsorbShape(p, c, ps, h, refs[..|refs| - 1]);
      var landing := Land(p, c, ps, h, r);
      if landing.OnEdge? {
        ObserveSorted(before.edges, landing.source.id, landing.target.id, r);
        ObserveMembers(before.edges, landing.source.id, landing.target.id, r);
        var d := LastDeclaration(c.declarations, r.sourceId).value;
        OwnedNode(p, c.modules, h, d.moduleId);
        forall e | e in Observe(before.edges, landing.source.id, landing.target.id, r)
          ensures e.source != e.target && e.observations != []
          ensures e.source in before.modules[landing.target.id := landing.target]
          ensures e.target in before.modules[landing.target.id := landing.target]
        {
          if e !in before.edges {
            assert Place(e)[0] == landing.source.id && Place(e)[1] == landing.target.id;
          }
        }
      }
    }
  }

  /** Every projected graph is well shaped, so looking up an edge's ends cannot fail. */
  lemma ProjectionShape(p: Profile, ps: seq<Profile>, h: ContextHash)
    ensures WellShaped(ProjectContext(p, ps, h))
  {
    if p.architecture.Some? {
      AbsorbShape(p, p.architecture.value, ps, h, p.architecture.value.references);
    }
  }

  // ----- Conservation: each reference is in exactly one place -----

  ghost function Landings(p: Profile, c: Capture, ps: seq<Profile>, h: ContextHash): Reference -> Landing {
    r => Land(p, c, ps, h, r)
  }

  /** The references of the capture that land on a given edge, in capture order. */
  ghost function Landed(land: Reference -> Landing, refs: seq<Reference>,
                        s: string, t: string): seq<Reference>
  {
    if refs == [] then []
    else
      var r := refs[|refs| - 1];
      var landing := land(r);
      Landed(land, refs[..|refs| - 1], s, t)
      + if landing.OnEdge? && landing.source.id == s && landing.target.id == t then [r] else []
  }

  ghost function Unplaced(land: Reference -> Landing, refs: seq<Reference>): seq<Reference> {
    if refs == [] then []
    else
      var r := refs[|refs| - 1];
      Unplaced(land, refs[..|refs| - 1]) + if land(r).Unresolved? then [r] else []
  }

  ghost function Internal(land: Reference -> Landing, refs: seq<Reference>): seq<Reference> {
    if refs == [] then []
    else
      var r := refs[|refs| - 1];
      Internal(land, refs[..|refs| - 1]) + if land(r).Inside? then [r] else []
  }

  ghost function ObservationsAt(edges: seq<Edge>, s: string, t: string): seq<Reference> {
    if edges == [] then []
    else if Place(edges[0]) == [s, t] then edges[0].observations
    else ObservationsAt(edges[1..], s, t)
  }

  ghost function AllObservations(edges: seq<Edge>): multiset<Reference> {
    if edges == [] then multiset{} else multiset(edges[0].observations) + AllObservations(edges[1..])
  }

  lemma {:induction false} ObserveAdds(edges: seq<Edge>, s: string, t: string, r: Reference)
    ensures AllObservations(Observe(edges, s, t, r)) == AllObservations(edges) + multiset{r}
  {
    var after := Observe(edges, s, t, r);
    if edges == [] || ListLess([s, t], Place(edges[0])) {
      assert after[1..] == edges;
    } else if Place(edges[0]) == [s, t] {
      assert after[1..] == edges[1..];
    } else {
      assert after[1..] == Observe(edges[1..], s, t, r);
      ObserveAdds(edges[1..], s, t, r);
    }
  }

  lemma {:induction false} ObservePlaces(edges: seq<Edge>, s: string, t: string, r: Reference, a: string, b: string)
    requires EdgesSorted(edges)
    ensures ObservationsAt(Observe(edges, s, t, r), a, b)
         == ObservationsAt(edges, a, b) + if a == s && b == t then [r] else []
  {
    var after := Observe(edges, s, t, r);
    assert [a, b] == [s, t] <==> a == s && b == t by {
      assert [a, b][0] == a && [a, b][1] == b && [s, t][0] == s && [s, t][1] == t;
    }
    if edges == [] || ListLess([s, t], Place(edges[0])) {
      assert after[1..] == edges;
      if a == s && b == t {
        NoLaterPlace(edges, s, t);
      }
    } else if Place(edges[0]) == [s, t] {
      assert after[1..] == edges[1..];
    } else {
      assert after[1..] == Observe(edges[1..], s, t, r);
      ObservePlaces(edges[1..], s, t, r, a, b);
    }
  }

  lemma {:induction false} NoLaterPlace(edges: seq<Edge>, s: string, t: string)
    requires EdgesSorted(edges) && (edges == [] || ListLess([s, t], Place(edges[0])))
    ensures ObservationsAt(edges, s, t) == []
  {
    if edges != [] {
      ListTrichotomy([s, t], Place(edges[0]));
      if |edges| > 1 {
        ListTransitive([s, t], Place(edges[0]), Place(edges[1]));
      }
      NoLaterPlace(edges[1..], s, t);
    }
  }

  lemma {:induction false} AbsorbUnplaced(p: Profile, c: Capture, ps: seq<Profile>, h: ContextHash, refs: seq<Reference>)
    ensures Absorb(p, c, ps, h, refs).unresolved == Unplaced(Landings(p, c, ps, h), refs)
    ensures |Absorb(p, c, ps, h, refs).missing| == |MissingEvidence(c)| + |Unplaced(Landings(p, c, ps, h), refs)|
  {
    if refs != [] {
      AbsorbUnplaced(p, c, ps, h, refs[..|refs| - 1]);
    }
  }

  ghost function Observed(land: Reference -> Landing, refs: seq<Reference>): seq<Reference> {
    if refs == [] then []
    else
      var r := refs[|refs| - 1];
      Observed(land, refs[..|refs| - 1]) + if land(r).OnEdge? then [r] else []
  }

  lemma {:induction false} LandingsPartition(land: Reference -> Landing, refs: seq<Reference>)
    ensures multiset(refs) == multiset(Observed(land, refs)) + multiset(Unplaced(land, refs))
                              + multiset(Internal(land, refs))
  {
    if refs != [] {
      var front, r := refs[..|refs| - 1], refs[|refs| - 1];
      LandingsPartition(land, front);
      Spread(refs, land(r), Observed(land, front), Unplaced(land, front), Internal(land, front),
             Observed(land, refs), Unplaced(land, refs), Internal(land, refs));
    }
  }

  lemma Spread(refs: seq<Reference>, landing: Landing,
               observed: seq<Reference>, unplaced: seq<Reference>, internal: seq<Reference>,
               observed': seq<Reference>, unplaced': seq<Reference>, internal': seq<Reference>)
    requires refs != []
    requires multiset(refs[..|refs| - 1]) == multiset(observed) + multiset(unplaced) + multiset(internal)
    requires observed' == observed + if landing.OnEdge? then [refs[|refs| - 1]] else []
    requires unplaced' == unplaced + if landing.Unresolved? then [refs[|refs| - 1]] else []
    requires internal' == internal + if landing.Inside? then [refs[|refs| - 1]] else []
    ensures multiset(refs) == multiset(observed') + multiset(unplaced') + multiset(internal')
  {
    assert refs == refs[..|refs| - 1] + [refs[|refs| - 1]];
    assert observed + [] == observed && unplaced + [] == unplaced && internal + [] == internal;
  }

  lemma {:induction false} ObservedOnEdges(p: Profile, c: Capture, ps: seq<Profile>, h: ContextHash, refs: seq<Reference>)
    ensures AllObservations(Absorb(p, c, ps, h, refs).edges) == multiset(Observed(Landings(p, c, ps, h), refs))
  {
    if refs != [] {
      var front, r := refs[..|refs| - 1], refs[|refs| - 1];
      ObservedOnEdges(p, c, ps, h, front);
      StepConserves(Absorb(p, c, ps, h, front), r, Land(p, c, ps, h, r));
    }
  }

  lemma StepConserves(g: Graph, r: Reference, landing: Landing)
    ensures AllObservations(Step(g, r, landing).edges)
         == AllObservations(g.edges) + if landing.OnEdge? then multiset{r} else multiset{}
  {
    if landing.OnEdge? {
      ObserveAdds(g.edges, landing.source.id, landing.target.id, r);
    }
  }

  lemma {:induction false} AbsorbPlaces(p: Profile, c: Capture, ps: seq<Profile>, h: ContextHash, refs: seq<Reference>,
                                        s: string, t: string)
    ensures ObservationsAt(Absorb(p, c, ps, h, refs).edges, s, t) == Landed(Landings(p, c, ps, h), refs, s, t)
  {
    if refs != [] {
      var front, r := refs[..|refs| - 1], refs[|refs| - 1];
      AbsorbPlaces(p, c, ps, h, front, s, t);
      AbsorbShape(p, c, ps, h, front);
      var landing := Land(p, c, ps, h, r);
      if landing.OnEdge? {
        ObservePlaces(Absorb(p, c, ps, h, front).edges, landing.source.id, landing.target.id, r, s, t);
      }
    }
  }

  /** Every captured reference ends in exactly one place: on one edge, among the unresolved
      references, or dropped as internal to its module. */
  lemma ReferencesConserved(p: Profile, ps: seq<Profile>, h: ContextHash)
    requires p.architecture.Some?
    ensures var c, g := p.architecture.value, ProjectContext(p, ps, h);
            multiset(c.references) == AllObservations(g.edges) + multiset(g.unresolved)
                                      + multiset(Internal(Landings(p, c, ps, h), c.references))
  {
    var c := p.architecture.value;
    LandingsPartition(Landings(p, c, ps, h), c.references);
    ObservedOnEdges(p, c, ps, h, c.references);
    AbsorbUnplaced(p, c, ps, h, c.references);
  }

  /** An edge's observations are the references from its source to its target, all of them, in
      capture order; the unresolved list is what could not be placed, in capture order. */
  lemma ReferencesPlaced(p: Profile, ps: seq<Profile>, h: ContextHash, s: string, t: string)
    requires p.architecture.Some?
    ensures var c, g := p.architecture.value, ProjectContext(p, ps, h);
            && ObservationsAt(g.edges, s, t) == Landed(Landings(p, c, ps, h), c.references, s, t)
            && g.unresolved == Unplaced(Landings(p, c, ps, h), c.references)
  {
    var c := p.architecture.value;
    AbsorbPlaces(p, c, ps, h, c.references, s, t);
    AbsorbUnplaced(p, c, ps, h, c.references);
  }

  // ----- What an empty list of missing evidence certifies -----

  /** A graph misses nothing exactly when its context was captured, the capture itself misses
      nothing and every reference was placed. */
  lemma NothingMissingIffResolved(p: Profile, ps: seq<Profile>, h: ContextHash)
    ensures var g := ProjectContext(p, ps, h);
            g.missing == [] <==>
              p.architecture.Some? && MissingEvidence(p.architecture.value) == [] && g.unresolved == []
  {
    if p.architecture.Some? {
      var c := p.architecture.value;
      AbsorbUnplaced(p, c, ps, h, c.references);
      var reasons := Absorb(p, c, ps, h, c.references).missing;
      if reasons != [] {
        assert reasons[0] in Elements(SortDedup(reasons));
      }
    }
  }

  lemma {:induction false} DeclaredOwner(ds: seq<Declaration>, id: string)
    requires id in DeclarationIds(ds)
    ensures LastDeclaration(ds, id).Some? && LastDeclaration(ds, id).value in ds
  {
    var d :| d in ds && d.id == id;
    if ds[|ds| - 1].id != id {
      assert d in ds[..|ds| - 1];
      DeclaredOwner(ds[..|ds| - 1], id);
    }
  }

  lemma {:induction false} ListedModule(ms: seq<Module>, id: string)
    requires id in ModuleIds(ms)
    ensures LastModule(ms, id).Some?
  {
    if ms[|ms| - 1].id != id {
      ListedModule(ms[..|ms| - 1], id);
    }
  }

  lemma ValidOwner(p: Profile, c: Capture, h: ContextHash, id: string)
    requires DeclarationsOk(c.declarations, ModuleIds(c.modules)) && id in DeclarationIds(c.declarations)
    ensures Owner(p, c, h, id).Some?
  {
    DeclaredOwner(c.declarations, id);
    ListedModule(c.modules, LastDeclaration(c.declarations, id).value.moduleId);
  }

  lemma {:induction false} LocalReferencesPlaced(p: Profile, c: Capture, ps: seq<Profile>, h: ContextHash,
                                                 refs: seq<Reference>)
    requires DeclarationsOk(c.declarations, ModuleIds(c.modules))
    requires forall r :: r in refs ==> ReferenceOk(r, DeclarationIds(c.declarations), c.crateId) && r.target.Local?
    ensures Unplaced(Landings(p, c, ps, h), refs) == []
  {
    if refs != [] {
      var r := refs[|refs| - 1];
      assert r in refs;
      ValidOwner(p, c, h, r.sourceId);
      ValidOwner(p, c, h, r.target.declarationId);
      LocalReferencesPlaced(p, c, ps, h, refs[..|refs| - 1]);
    }
  }

  /** A validated capture that only refers to itself resolves completely. */
  lemma LocalCaptureResolves(p: Profile, ps: seq<Profile>, h: ContextHash)
    requires p.architecture.Some? && CaptureOk(p.architecture.value)
    requires forall r :: r in p.architecture.value.references ==> r.target.Local?
    ensures ProjectContext(p, ps, h).unresolved == []
  {
    var c := p.architecture.value;
    LocalReferencesPlaced(p, c, ps, h, c.references);
    AbsorbUnplaced(p, c, ps, h, c.references);
  }
}
