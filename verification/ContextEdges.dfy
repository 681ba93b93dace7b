/** What the edges of a context graph mean, in terms of the captured lists alone
    (src/compiler_inventory/architecture_graph.rs). */
module ContextEdges {
  import opened Order
  import opened Profiles
  import opened Capture
  import opened ContextGraph

  // ----- What the captured lists say -----

  /** The capture declares the id in module `m`. */
  ghost predicate Owns(c: Capture, declarationId: string, m: Module) {
    m in c.modules && exists d :: d in c.declarations && d.id == declarationId && d.moduleId == m.id
  }

  predicate OfCrate(q: Profile, crateId: string) {
    q.architecture.Some? && q.architecture.value.crateId == crateId
  }

  ghost predicate OnlyOfCrate(ps: seq<Profile>, crateId: string, i: int) {
    && 0 <= i < |ps| && OfCrate(ps[i], crateId)
    && forall j :: 0 <= j < |ps| && OfCrate(ps[j], crateId) ==> j == i
  }

  /** The capture has the module an external target names, and declares its definition nowhere else. */
  ghost predicate Inventoried(c: Capture, t: Target, m: Module)
    requires t.External?
  {
    && m in c.modules && m.id == t.moduleId && m.path == t.modulePath
    && forall d :: d in c.declarations && d.id == t.definitionId ==> d.moduleId == m.id
  }

  function IdIn(q: Profile, h: ContextHash, m: Module): string {
    q.ContextId(h) + "::" + m.id
  }

  ghost predicate ComesFrom(p: Profile, h: ContextHash, r: Reference, id: string)
    requires p.architecture.Some?
  {
    exists m :: Owns(p.architecture.value, r.sourceId, m) && id == IdIn(p, h, m)
  }

  ghost predicate LeadsOutside(ps: seq<Profile>, t: Target, id: string)
    requires t.External?
  {
    (forall q :: q in ps ==> !OfCrate(q, t.crateId)) && id == "external::" + t.crateId + "::" + t.moduleId
  }

  ghost predicate LeadsToCaptured(ps: seq<Profile>, h: ContextHash, t: Target, id: string)
    requires t.External?
  {
    exists i, m :: OnlyOfCrate(ps, t.crateId, i) && Inventoried(ps[i].architecture.value, t, m) && id == IdIn(ps[i], h, m)
  }

  /** A local target leads to the module that declares it, an external one to the module the one captured
      profile of its crate has, or out of the inventory when there is no such profile. */
  ghost predicate LeadsTo(p: Profile, ps: seq<Profile>, h: ContextHash, t: Target, id: string)
    requires p.architecture.Some?
  {
    match t
    case Local(d) => exists m :: Owns(p.architecture.value, d, m) && id == IdIn(p, h, m)
    case External(_, _, _, _, _) => LeadsOutside(ps, t, id) || LeadsToCaptured(ps, h, t, id)
    case Unknown(_) => false
  }

  ghost predicate Joins(p: Profile, ps: seq<Profile>, h: ContextHash, r: Reference, a: string, b: string)
    requires p.architecture.Some?
  {
    a != b && ComesFrom(p, h, r, a) && LeadsTo(p, ps, h, r.target, b)
  }

  ghost predicate Leads(p: Profile, ps: seq<Profile>, h: ContextHash, r: Reference)
    requires p.architecture.Some?
  {
    exists id :: LeadsTo(p, ps, h, r.target, id)
  }

  ghost function Selected(holds: Reference -> bool, refs: seq<Reference>): seq<Reference> {
    if refs == [] then []
    else Selected(holds, refs[..|refs| - 1]) + if holds(refs[|refs| - 1]) then [refs[|refs| - 1]] else []
  }

  ghost function Joining(p: Profile, ps: seq<Profile>, h: ContextHash, a: string, b: string): Reference -> bool
    requires p.architecture.Some?
  {
    r => Joins(p, ps, h, r, a, b)
  }

  ghost function Astray(p: Profile, ps: seq<Profile>, h: ContextHash): Reference -> bool
    requires p.architecture.Some?
  {
    r => !Leads(p, ps, h, r)
  }

  // ----- The lookups find what the lists say -----

  lemma {:induction false} DeclarationFound(ds: seq<Declaration>, d: Declaration)
    requires (forall i, j :: 0 <= i < j < |ds| ==> ds[i].id != ds[j].id) && d in ds
    ensures LastDeclaration(ds, d.id) == Some(d)
  {
    if ds[|ds| - 1] != d {
      assert d in ds[..|ds| - 1];
      DeclarationFound(ds[..|ds| - 1], d);
    }
  }

  lemma {:induction false} ModuleFound(ms: seq<Module>, m: Module)
    requires (forall i, j :: 0 <= i < j < |ms| ==> ms[i].id != ms[j].id) && m in ms
    ensures LastModule(ms, m.id) == Some(m)
  {
    if ms[|ms| - 1] != m {
      assert m in ms[..|ms| - 1];
      ModuleFound(ms[..|ms| - 1], m);
    }
  }

  lemma OwnerFound(p: Profile, c: Capture, h: ContextHash, id: string, m: Module)
    requires CaptureOk(c) && Owns(c, id, m)
    ensures Owner(p, c, h, id) == Some(NodeOf(p, m, h))
  {
    var d :| d in c.declarations && d.id == id && d.moduleId == m.id;
    DeclarationFound(c.declarations, d);
    ModuleFound(c.modules, m);
  }

  lemma OwnerExists(c: Capture, id: string) returns (m: Module)
    requires CaptureOk(c) && id in DeclarationIds(c.declarations)
    ensures Owns(c, id, m)
  {
    var d :| d in c.declarations && d.id == id;
    m := ModuleOf(c.modules, d.moduleId);
  }

  /** The owner of a declared id is a node with the id `a` exactly when the lists say so. */
  lemma OwnerMeans(p: Profile, c: Capture, h: ContextHash, id: string, a: string)
    requires CaptureOk(c) && id in DeclarationIds(c.declarations)
    ensures Owner(p, c, h, id).Some?
    ensures Owner(p, c, h, id).value.id == a <==> exists m :: Owns(c, id, m) && a == IdIn(p, h, m)
  {
    var m := OwnerExists(c, id);
    OwnerFound(p, c, h, id, m);
    forall n | Owns(c, id, n) ensures Owner(p, c, h, id) == Some(NodeOf(p, n, h)) {
      OwnerFound(p, c, h, id, n);
    }
  }

  lemma {:induction false} CrateProfiles(ps: seq<Profile>, crateId: string)
    ensures ProfilesOfCrate(ps, crateId) == [] <==> forall q :: q in ps ==> !OfCrate(q, crateId)
    ensures |ProfilesOfCrate(ps, crateId)| == 1 <==> exists i :: OnlyOfCrate(ps, crateId, i)
    ensures forall i :: OnlyOfCrate(ps, crateId, i) ==> ProfilesOfCrate(ps, crateId) == [ps[i]]
  {
    if ps != [] {
      var rest := ps[1..];
      assert ps == [ps[0]] + rest;
      CrateProfiles(rest, crateId);
      forall i | OnlyOfCrate(ps, crateId, i)
        ensures ProfilesOfCrate(ps, crateId) == [ps[i]]
      {
        if i == 0 {
          forall q | q in rest ensures !OfCrate(q, crateId) {
            var j :| 0 <= j < |rest| && rest[j] == q;
            assert ps[j + 1] == q;
          }
        } else {
          OnlyLater(ps, crateId, i);
        }
      }
      if |ProfilesOfCrate(ps, crateId)| == 1 {
        OnlyOneOfCrate(ps, crateId);
      }
    }
  }

  lemma OnlyLater(ps: seq<Profile>, crateId: string, i: int)
    requires i > 0 && OnlyOfCrate(ps, crateId, i)
    ensures OnlyOfCrate(ps[1..], crateId, i - 1) && !OfCrate(ps[0], crateId)
  {
    forall j | 0 <= j < |ps[1..]| && OfCrate(ps[1..][j], crateId) ensures j == i - 1 {
      assert ps[j + 1] == ps[1..][j];
    }
  }

  lemma OnlyOneOfCrate(ps: seq<Profile>, crateId: string)
    requires ps != [] && |ProfilesOfCrate(ps, crateId)| == 1
    requires ProfilesOfCrate(ps[1..], crateId) == [] <==> forall q :: q in ps[1..] ==> !OfCrate(q, crateId)
    requires |ProfilesOfCrate(ps[1..], crateId)| == 1 <==> exists i :: OnlyOfCrate(ps[1..], crateId, i)
    ensures exists i :: OnlyOfCrate(ps, crateId, i)
  {
    var rest := ps[1..];
    assert forall j :: 0 < j < |ps| ==> ps[j] == rest[j - 1] && ps[j] in rest;
    if OfCrate(ps[0], crateId) {
      assert OnlyOfCrate(ps, crateId, 0);
    } else {
      var i :| OnlyOfCrate(rest, crateId, i);
      assert OnlyOfCrate(ps, crateId, i + 1);
    }
  }

  lemma {:induction false} ModuleAt(ms: seq<Module>, id: string, path: string)
    ensures FirstModuleAt(ms, id, path).Some? <==> exists m :: m in ms && m.id == id && m.path == path
    ensures FirstModuleAt(ms, id, path).Some? ==>
              var m := FirstModuleAt(ms, id, path).value; m in ms && m.id == id && m.path == path
  {
    if ms != [] {
      assert ms == [ms[0]] + ms[1..];
      ModuleAt(ms[1..], id, path);
    }
  }

  /** An external target is found as a node with the id `b` exactly when the lists lead there. */
  lemma ExternalMeans(ps: seq<Profile>, h: ContextHash, t: Target, b: string)
    requires t.External?
    ensures ExternalTarget(ps, h, t).Found? && ExternalTarget(ps, h, t).node.id == b <==>
            LeadsOutside(ps, t, b) || LeadsToCaptured(ps, h, t, b)
  {
    CrateProfiles(ps, t.crateId);
    var matches := ProfilesOfCrate(ps, t.crateId);
    if i :| OnlyOfCrate(ps, t.crateId, i) {
      assert ps[i] in ps;
      var c := ps[i].architecture.value;
      ModuleAt(c.modules, t.moduleId, t.modulePath);
      if ExternalTarget(ps, h, t).Found? {
        assert Inventoried(c, t, FirstModuleAt(c.modules, t.moduleId, t.modulePath).value);
      }
    }
  }

  lemma TargetMeans(p: Profile, ps: seq<Profile>, h: ContextHash, r: Reference, b: string)
    requires p.architecture.Some? && CaptureOk(p.architecture.value) && r in p.architecture.value.references
    ensures var found := TargetOf(p, p.architecture.value, ps, h, r.target);
            found.Found? && found.node.id == b <==> LeadsTo(p, ps, h, r.target, b)
  {
    var c := p.architecture.value;
    match r.target
    case Local(d) => OwnerMeans(p, c, h, d, b);
    case External(_, _, _, _, _) => ExternalMeans(ps, h, r.target, b);
    case Unknown(_) =>
  }

  /** A reference lands on the edge from `a` to `b` exactly when the lists make it join the two. */
  lemma LandingMeans(p: Profile, ps: seq<Profile>, h: ContextHash, r: Reference, a: string, b: string)
    requires p.architecture.Some? && CaptureOk(p.architecture.value) && r in p.architecture.value.references
    ensures var landing := Land(p, p.architecture.value, ps, h, r);
            landing.OnEdge? && landing.source.id == a && landing.target.id == b <==> Joins(p, ps, h, r, a, b)
  {
    OwnerMeans(p, p.architecture.value, h, r.sourceId, a);
    TargetMeans(p, ps, h, r, b);
  }

  lemma UnresolvedMeans(p: Profile, ps: seq<Profile>, h: ContextHash, r: Reference)
    requires p.architecture.Some? && CaptureOk(p.architecture.value) && r in p.architecture.value.references
    ensures Land(p, p.architecture.value, ps, h, r).Unresolved? <==> !Leads(p, ps, h, r)
  {
    var c := p.architecture.value;
    OwnerMeans(p, c, h, r.sourceId, "");
    var found := TargetOf(p, c, ps, h, r.target);
    if found.Found? {
      TargetMeans(p, ps, h, r, found.node.id);
    } else {
      forall id ensures !LeadsTo(p, ps, h, r.target, id) {
        TargetMeans(p, ps, h, r, id);
      }
    }
  }

  lemma {:induction false} LandedMeans(p: Profile, ps: seq<Profile>, h: ContextHash, refs: seq<Reference>,
                                       a: string, b: string)
    requires p.architecture.Some? && CaptureOk(p.architecture.value)
    requires forall r :: r in refs ==> r in p.architecture.value.references
    ensures Landed(Landings(p, p.architecture.value, ps, h), refs, a, b) == Selected(Joining(p, ps, h, a, b), refs)
  {
    if refs != [] {
      LandedMeans(p, ps, h, refs[..|refs| - 1], a, b);
      assert refs[|refs| - 1] in refs;
      LandingMeans(p, ps, h, refs[|refs| - 1], a, b);
    }
  }

  lemma {:induction false} UnplacedMeans(p: Profile, ps: seq<Profile>, h: ContextHash, refs: seq<Reference>)
    requires p.architecture.Some? && CaptureOk(p.architecture.value)
    requires forall r :: r in refs ==> r in p.architecture.value.references
    ensures Unplaced(Landings(p, p.architecture.value, ps, h), refs) == Selected(Astray(p, ps, h), refs)
  {
    if refs != [] {
      UnplacedMeans(p, ps, h, refs[..|refs| - 1]);
      assert refs[|refs| - 1] in refs;
      UnresolvedMeans(p, ps, h, refs[|refs| - 1]);
    }
  }

  // ----- Edges -----

  lemma {:induction false} ObservationsOf(edges: seq<Edge>, e: Edge)
    requires EdgesSorted(edges) && e in edges
    ensures ObservationsAt(edges, e.source, e.target) == e.observations
  {
    if e != edges[0] {
      var i :| 1 <= i < |edges| && edges[i] == e;
      ListTrichotomy(Place(edges[0]), Place(edges[i]));
      assert edges[1..][i - 1] == e;
      ObservationsOf(edges[1..], e);
    }
  }

  lemma {:induction false} EdgeAt(edges: seq<Edge>, a: string, b: string) returns (e: Edge)
    requires ObservationsAt(edges, a, b) != []
    ensures e in edges && e.source == a && e.target == b
  {
    if Place(edges[0]) == [a, b] {
      e := edges[0];
      assert Place(e)[0] == a && Place(e)[1] == b;
    } else {
      e := EdgeAt(edges[1..], a, b);
    }
  }

  lemma {:induction false} SelectedMember(holds: Reference -> bool, refs: seq<Reference>, r: Reference)
    ensures r in Selected(holds, refs) <==> r in refs && holds(r)
  {
    if refs != [] {
      var front, last := refs[..|refs| - 1], refs[|refs| - 1];
      assert refs == front + [last];
      SelectedMember(holds, front, r);
    }
  }

  ghost predicate HasEdge(g: Graph, a: string, b: string) {
    exists e :: e in g.edges && Between(e, a, b)
  }

  predicate Between(e: Edge, a: string, b: string) {
    e.source == a && e.target == b
  }

  lemma ObservedJoining(p: Profile, ps: seq<Profile>, h: ContextHash, a: string, b: string)
    requires p.architecture.Some? && CaptureOk(p.architecture.value)
    ensures ObservationsAt(ProjectContext(p, ps, h).edges, a, b)
         == Selected(Joining(p, ps, h, a, b), p.architecture.value.references)
  {
    ReferencesPlaced(p, ps, h, a, b);
    LandedMeans(p, ps, h, p.architecture.value.references, a, b);
  }

  /** In the graph of a validated capture the observations of an edge are exactly the references that lead from its
      source to its target, in capture order. */
  lemma EdgeObservations(p: Profile, ps: seq<Profile>, h: ContextHash, e: Edge)
    requires p.architecture.Some? && CaptureOk(p.architecture.value) && e in ProjectContext(p, ps, h).edges
    ensures e.observations == Selected(Joining(p, ps, h, e.source, e.target), p.architecture.value.references)
  {
    ProjectionShape(p, ps, h);
    ObservationsOf(ProjectContext(p, ps, h).edges, e);
    ObservedJoining(p, ps, h, e.source, e.target);
  }

  /** Two nodes are joined by an edge exactly when some reference leads from one to the other. */
  lemma EdgeIffReferred(p: Profile, ps: seq<Profile>, h: ContextHash, a: string, b: string)
    requires p.architecture.Some? && CaptureOk(p.architecture.value)
    ensures HasEdge(ProjectContext(p, ps, h), a, b) <==>
            exists r :: r in p.architecture.value.references && Joins(p, ps, h, r, a, b)
  {
    var refs, g := p.architecture.value.references, ProjectContext(p, ps, h);
    var joining := Selected(Joining(p, ps, h, a, b), refs);
    ObservedJoining(p, ps, h, a, b);
    if e :| e in g.edges && Between(e, a, b) {
      ProjectionShape(p, ps, h);
      ObservationsOf(g.edges, e);
      SelectedMember(Joining(p, ps, h, a, b), refs, joining[0]);
    }
    if r :| r in refs && Joins(p, ps, h, r, a, b) {
      SelectedMember(Joining(p, ps, h, a, b), refs, r);
      var e := EdgeAt(g.edges, a, b);
      assert Between(e, a, b);
    }
  }

  /** Unresolved are exactly the references that lead nowhere, in capture order. */
  lemma UnresolvedAstray(p: Profile, ps: seq<Profile>, h: ContextHash)
    requires p.architecture.Some? && CaptureOk(p.architecture.value)
    ensures ProjectContext(p, ps, h).unresolved == Selected(Astray(p, ps, h), p.architecture.value.references)
  {
    ReferencesPlaced(p, ps, h, "", "");
    UnplacedMeans(p, ps, h, p.architecture.value.references);
  }

  /** A local reference joins two modules of its capture exactly when they are different and declare its ends. */
  lemma LocalJoins(p: Profile, ps: seq<Profile>, h: ContextHash, r: Reference, m: Module, n: Module)
    requires p.architecture.Some? && r.target.Local?
    requires m in p.architecture.value.modules && n in p.architecture.value.modules
    ensures Joins(p, ps, h, r, IdIn(p, h, m), IdIn(p, h, n)) <==>
              && m.id != n.id
              && (exists d :: d in p.architecture.value.declarations && d.id == r.sourceId && d.moduleId == m.id)
              && (exists e :: e in p.architecture.value.declarations && e.id == r.target.declarationId && e.moduleId == n.id)
  {
    forall k: Module, l: Module | IdIn(p, h, k) == IdIn(p, h, l) ensures k.id == l.id {
      var prefix := p.ContextId(h) + "::";
      assert IdIn(p, h, k)[|prefix|..] == k.id && IdIn(p, h, l)[|prefix|..] == l.id;
    }
  }

  // ----- Nodes -----

  ghost predicate InventoriedNode(q: Profile, h: ContextHash, m: Module, node: Node) {
    && q.architecture.Some? && m in q.architecture.value.modules
    && node.id == q.ContextId(h) + "::" + m.id && node.contextId == Some(q.ContextId(h))
    && node.selector == q.packageName + "::shared::" + (if m.path == "" then "crate" else m.path)
    && node.modulePath == m.path && node.packageName == Some(q.packageName) && node.origin == Some(m.origin)
  }

  ghost predicate OutsideNode(ps: seq<Profile>, t: Target, node: Node) {
    && t.External? && (forall q :: q in ps ==> !OfCrate(q, t.crateId))
    && node.id == "external::" + t.crateId + "::" + t.moduleId && node.contextId == None
    && node.selector == "external::" + t.crateName + "::" + (if t.modulePath == "" then "crate" else t.modulePath)
    && node.modulePath == t.modulePath && node.packageName == None && node.origin == None
  }

  /** What a node stands for: a module of the context itself or of another captured profile, or a module outside. */
  ghost predicate Described(p: Profile, ps: seq<Profile>, h: ContextHash, node: Node)
    requires p.architecture.Some?
  {
    || (exists q, m :: (q == p || q in ps) && InventoriedNode(q, h, m, node))
    || (exists r :: r in p.architecture.value.references && OutsideNode(ps, r.target, node))
  }

  lemma {:induction false} OwnDescribed(p: Profile, h: ContextHash, ms: seq<Module>)
    requires p.architecture.Some? && forall m :: m in ms ==> m in p.architecture.value.modules
    ensures forall id :: id in ModuleNodes(p, ms, h) ==>
              ModuleNodes(p, ms, h)[id].id == id && exists m :: InventoriedNode(p, h, m, ModuleNodes(p, ms, h)[id])
    ensures forall m :: m in ms ==> IdIn(p, h, m) in ModuleNodes(p, ms, h)
  {
    if ms != [] {
      var front, m := ms[..|ms| - 1], ms[|ms| - 1];
      assert ms == front + [m];
      OwnDescribed(p, h, front);
      assert InventoriedNode(p, h, m, NodeOf(p, m, h));
    }
  }

  lemma TargetDescribed(p: Profile, ps: seq<Profile>, h: ContextHash, r: Reference)
    requires p.architecture.Some? && r in p.architecture.value.references
    requires TargetOf(p, p.architecture.value, ps, h, r.target).Found?
    ensures Described(p, ps, h, TargetOf(p, p.architecture.value, ps, h, r.target).node)
  {
    var c := p.architecture.value;
    var node := TargetOf(p, c, ps, h, r.target).node;
    match r.target
    case Local(d) =>
      var m := LastModule(c.modules, LastDeclaration(c.declarations, d).value.moduleId).value;
      LastIsListed(c.modules, LastDeclaration(c.declarations, d).value.moduleId);
      assert InventoriedNode(p, h, m, node);
    case External(crateId, _, _, _, moduleId) =>
      CrateProfiles(ps, crateId);
      if exists i :: OnlyOfCrate(ps, crateId, i) {
        var i :| OnlyOfCrate(ps, crateId, i);
        var ms := ps[i].architecture.value.modules;
        ModuleAt(ms, moduleId, r.target.modulePath);
        assert ps[i] in ps && InventoriedNode(ps[i], h, FirstModuleAt(ms, moduleId, r.target.modulePath).value, node);
      } else {
        assert OutsideNode(ps, r.target, node);
      }
    case Unknown(_) =>
  }

  lemma {:induction false} LastIsListed(ms: seq<Module>, id: string)
    requires LastModule(ms, id).Some?
    ensures LastModule(ms, id).value in ms
  {
    if ms[|ms| - 1].id != id {
      LastIsListed(ms[..|ms| - 1], id);
    }
  }

  ghost predicate AllDescribed(p: Profile, ps: seq<Profile>, h: ContextHash, nodes: map<string, Node>)
    requires p.architecture.Some?
  {
    forall id :: id in nodes ==> nodes[id].id == id && Described(p, ps, h, nodes[id])
  }

  lemma OwnAllDescribed(p: Profile, ps: seq<Profile>, h: ContextHash)
    requires p.architecture.Some?
    ensures AllDescribed(p, ps, h, ModuleNodes(p, p.architecture.value.modules, h))
  {
    var nodes := ModuleNodes(p, p.architecture.value.modules, h);
    OwnDescribed(p, h, p.architecture.value.modules);
    forall id | id in nodes ensures nodes[id].id == id && Described(p, ps, h, nodes[id]) {
      var m :| InventoriedNode(p, h, m, nodes[id]);
    }
  }

  lemma AddedDescribed(p: Profile, ps: seq<Profile>, h: ContextHash, nodes: map<string, Node>, node: Node)
    requires p.architecture.Some? && AllDescribed(p, ps, h, nodes) && Described(p, ps, h, node)
    ensures AllDescribed(p, ps, h, nodes[node.id := node])
  {
  }

  lemma StepDescribed(p: Profile, ps: seq<Profile>, h: ContextHash, g: Graph, r: Reference)
    requires p.architecture.Some? && r in p.architecture.value.references && AllDescribed(p, ps, h, g.modules)
    ensures AllDescribed(p, ps, h, Step(g, r, Land(p, p.architecture.value, ps, h, r)).modules)
  {
    var c := p.architecture.value;
    var found := TargetOf(p, c, ps, h, r.target);
    if found.Found? {
      TargetDescribed(p, ps, h, r);
      AddedDescribed(p, ps, h, g.modules, found.node);
    }
  }

  lemma {:induction false} AbsorbDescribed(p: Profile, ps: seq<Profile>, h: ContextHash, refs: seq<Reference>)
    requires p.architecture.Some? && forall r :: r in refs ==> r in p.architecture.value.references
    ensures AllDescribed(p, ps, h, Absorb(p, p.architecture.value, ps, h, refs).modules)
  {
    if refs == [] {
      OwnAllDescribed(p, ps, h);
    } else {
      var r := refs[|refs| - 1];
      assert r in refs;
      AbsorbDescribed(p, ps, h, refs[..|refs| - 1]);
      StepDescribed(p, ps, h, Absorb(p, p.architecture.value, ps, h, refs[..|refs| - 1]), r);
    }
  }

  /** Every node is listed under its own id and carries the selector, path, package and origin of the module it
      stands for, and the context's own modules are all there. */
  lemma NodesMean(p: Profile, ps: seq<Profile>, h: ContextHash)
    requires p.architecture.Some?
    ensures var nodes := ProjectContext(p, ps, h).modules;
            && (forall id :: id in nodes ==> nodes[id].id == id && Described(p, ps, h, nodes[id]))
            && (forall m :: m in p.architecture.value.modules ==> IdIn(p, h, m) in nodes)
  {
    var c := p.architecture.value;
    AbsorbDescribed(p, ps, h, c.references);
    AbsorbShape(p, c, ps, h, c.references);
    OwnDescribed(p, h, c.modules);
  }
}
