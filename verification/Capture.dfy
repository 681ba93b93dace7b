/** Source origins of compiler definitions (src/compiler_inventory.rs). */
module Origins {
  import opened Order

  datatype Location = Location(path: string, line: nat, column: nat, endLine: nat, endColumn: nat)

  datatype Origin = Origin(generated: bool, locationKind: string, location: Option<Location>)

  /** `Path::is_absolute` on Unix. */
  predicate IsAbsolute(path: string) {
    path != "" && path[0] == '/'
  }

  predicate OriginOk(o: Origin) {
    match o.location
    case Some(at) =>
      && IsAbsolute(at.path) && at.line > 0 && at.column > 0 && at.endColumn > 0
      && (at.endLine > at.line || (at.endLine == at.line && at.endColumn >= at.column))
      && o.locationKind == (if o.generated then "invocation_anchor" else "authored")
    case None => o.locationKind == "unavailable"
  }
}

/** The captured module tree and its references (src/compiler_inventory/architecture.rs). */
module Capture {
  import opened Order
  import opened Origins
  import opened Permutations

  const MODEL_VERSION: nat := 1
  const CATEGORIES: seq<string> := ["bodies", "imports", "traits", "types"]
  const INFRASTRUCTURE: set<string> := {"standard_library_injection", "test_harness", "proc_macro_harness"}

  datatype Module = Module(id: string, path: string, parent: Option<string>, origin: Origin)

  datatype Declaration = Declaration(id: string, moduleId: string, kind: string, origin: Origin)

  datatype Target =
    | Local(declarationId: string)
    | External(crateId: string, crateName: string, definitionId: string, modulePath: string, moduleId: string)
    | Unknown(reason: string)

  datatype ReferenceKind = Import | Type | Trait | Body | Method

  datatype Reference = Reference(sourceId: string, target: Target, kind: ReferenceKind, origin: Origin)

  datatype Capture = Capture(modelVersion: nat, crateId: string, modules: seq<Module>,
                             declarations: seq<Declaration>, references: seq<Reference>,
                             covered: set<string>, limitations: seq<string>, excluded: set<string>)

  // ----- What a valid module tree is -----

  ghost function ModuleIds(ms: seq<Module>): (ids: set<string>)
    ensures forall m :: m in ms ==> m.id in ids
  {
    if ms == [] then {} else ModuleIds(ms[..|ms| - 1]) + {ms[|ms| - 1].id}
  }

  lemma {:induction false} ModuleOf(ms: seq<Module>, id: string) returns (m: Module)
    requires id in ModuleIds(ms)
    ensures m in ms && m.id == id
  {
    if id == ms[|ms| - 1].id {
      m := ms[|ms| - 1];
    } else {
      m := ModuleOf(ms[..|ms| - 1], id);
    }
  }

  ghost predicate ModulesWellFormed(ms: seq<Module>) {
    && (forall m :: m in ms ==> m.id != "" && OriginOk(m.origin) && (m.path == "" <==> m.parent.None?))
    && (forall i, j :: 0 <= i < j < |ms| ==> ms[i].id != ms[j].id)
  }

  /** Every module hangs one level below its parent, and the root is at level 0. */
  ghost predicate Depths(ms: seq<Module>, depth: map<string, nat>) {
    && depth.Keys == ModuleIds(ms)
    && forall m :: m in ms ==>
         match m.parent
         case None => depth[m.id] == 0
         case Some(p) => p in depth && depth[m.id] == depth[p] + 1
  }

  ghost predicate OneRoot(ms: seq<Module>) {
    exists root :: root in ms && forall m :: m in ms ==> (m.parent.None? <==> m == root)
  }

  ghost predicate RootedTree(ms: seq<Module>) {
    ModulesWellFormed(ms) && OneRoot(ms) && exists depth :: Depths(ms, depth)
  }

  // ----- The parent chains the cursor loop follows -----

  type Parents = map<string, Option<string>>

  ghost predicate IsParentMap(ms: seq<Module>, parents: Parents) {
    && parents.Keys == ModuleIds(ms)
    && forall m :: m in ms ==> parents[m.id] == m.parent
  }

  /** A complete parent chain: from its first module up to one without parent. */
  ghost predicate Chain(parents: Parents, c: seq<string>) {
    && c != []
    && (forall i :: 0 <= i < |c| ==> c[i] in parents)
    && (forall i :: 0 <= i < |c| - 1 ==> parents[c[i]] == Some(c[i + 1]))
    && parents[c[|c| - 1]] == None
  }

  ghost predicate HasChain(parents: Parents, id: string) {
    exists c :: Chain(parents, c) && c[0] == id
  }

  lemma ChainStep(parents: Parents, c: seq<string>)
    requires Chain(parents, c)
    ensures parents[c[0]] == if |c| == 1 then None else Some(c[1])
    ensures |c| > 1 ==> Chain(parents, c[1..])
  {
    if |c| > 1 {
      assert parents[c[0]] == Some(c[0 + 1]);
      forall i | 0 <= i < |c[1..]| - 1 ensures parents[c[1..][i]] == Some(c[1..][i + 1]) {
        assert parents[c[i + 1]] == Some(c[i + 1 + 1]);
      }
    }
  }

  lemma {:induction false} ChainUnique(parents: Parents, c: seq<string>, d: seq<string>)
    requires Chain(parents, c) && Chain(parents, d) && c[0] == d[0]
    ensures c == d
  {
    ChainStep(parents, c);
    ChainStep(parents, d);
    if |c| > 1 {
      ChainUnique(parents, c[1..], d[1..]);
      assert c == [c[0]] + c[1..] && d == [d[0]] + d[1..];
    }
  }

  lemma {:induction false} ChainSuffix(parents: Parents, c: seq<string>, k: nat)
    requires Chain(parents, c) && k < |c|
    ensures Chain(parents, c[k..])
  {
    if k > 0 {
      ChainStep(parents, c);
      ChainSuffix(parents, c[1..], k - 1);
      assert c[1..][k - 1..] == c[k..];
    }
  }

  lemma ChainNoRepeat(parents: Parents, c: seq<string>, i: nat, j: nat)
    requires Chain(parents, c) && i < j < |c|
    ensures c[i] != c[j]
  {
    if c[i] == c[j] {
      ChainSuffix(parents, c, i);
      ChainSuffix(parents, c, j);
      ChainUnique(parents, c[i..], c[j..]);
    }
  }

  /** The cursor loop from one module: it terminates on every parent map, and succeeds exactly
      when the module's parent chain is complete. */
  method WalkToRoot(parents: Parents, start: string) returns (ok: bool)
    ensures ok <==> HasChain(parents, start)
  {
    var seen: set<string> := {};
    var cursor := Some(start);
    ghost var trail: seq<string> := [];
    while cursor.Some?
      invariant seen <= parents.Keys && forall s :: s in seen <==> s in trail
      invariant forall k :: 0 <= k < |trail| - 1 ==> parents[trail[k]] == Some(trail[k + 1])
      invariant trail != [] ==> parents[trail[|trail| - 1]] == cursor
      invariant if trail == [] then cursor == Some(start) else trail[0] == start
      invariant forall c :: Chain(parents, c) && c[0] == start ==> trail <= c
      decreases parents.Keys - seen, cursor.Some?
    {
      var id := cursor.value;
      forall c | Chain(parents, c) && c[0] == start ensures trail + [id] <= c {
        NextOnChain(parents, c, trail, id);
      }
      if id in seen || id !in parents {
        forall c | Chain(parents, c) && c[0] == start ensures false {
          if id in trail {
            var k :| 0 <= k < |trail| && trail[k] == id;
            assert c[k] == (trail + [id])[k] && c[|trail|] == (trail + [id])[|trail|];
            ChainNoRepeat(parents, c, k, |trail|);
          }
        }
        return false;
      }
      seen := seen + {id};
      trail := trail + [id];
      cursor := parents[id];
    }
    assert Chain(parents, trail);
    return true;
  }

  lemma NextOnChain(parents: Parents, c: seq<string>, trail: seq<string>, id: string)
    requires Chain(parents, c) && trail <= c
    requires if trail == [] then c[0] == id
             else trail[|trail| - 1] in parents && parents[trail[|trail| - 1]] == Some(id)
    ensures trail + [id] <= c
  {
    if trail != [] {
      var k := |trail| - 1;
      assert c[k] == trail[k];
      if |c| == |trail| {
        assert false;
      }
      assert parents[c[k]] == Some(c[k + 1]);
    }
  }

  ghost function ChainOf(parents: Parents, id: string): (c: seq<string>)
    requires HasChain(parents, id)
    ensures Chain(parents, c) && c[0] == id
  {
    var c :| Chain(parents, c) && c[0] == id;
    c
  }

  ghost function Level(parents: Parents, id: string): nat
    requires HasChain(parents, id)
  {
    |ChainOf(parents, id)| - 1
  }

  lemma LevelOfChild(parents: Parents, id: string)
    requires HasChain(parents, id)
    ensures id in parents
    ensures match parents[id]
            case None => Level(parents, id) == 0
            case Some(p) => HasChain(parents, p) && Level(parents, id) == Level(parents, p) + 1
  {
    var c := ChainOf(parents, id);
    ChainStep(parents, c);
    if |c| > 1 {
      ChainUnique(parents, c[1..], ChainOf(parents, c[1]));
    }
  }

  lemma ChainsIffDepths(ms: seq<Module>, parents: Parents)
    requires IsParentMap(ms, parents)
    ensures (forall id :: id in parents ==> HasChain(parents, id)) <==> exists depth :: Depths(ms, depth)
  {
    if forall id :: id in parents ==> HasChain(parents, id) {
      var depth: map<string, nat> := map id | id in parents :: Level(parents, id);
      forall m | m in ms
        ensures m.id in parents
        ensures match m.parent
                case None => depth[m.id] == 0
                case Some(p) => p in depth && depth[m.id] == depth[p] + 1
      {
        assert m.id in ModuleIds(ms);
        LevelOfChild(parents, m.id);
        if m.parent.Some? {
          LevelOfChild(parents, m.parent.value);
        }
      }
      assert Depths(ms, depth);
    }
    if depth :| Depths(ms, depth) {
      forall id | id in parents ensures HasChain(parents, id) {
        DepthGivesChain(ms, parents, depth, id);
      }
    }
  }

  lemma {:induction false} DepthGivesChain(ms: seq<Module>, parents: Parents, depth: map<string, nat>, id: string)
    requires IsParentMap(ms, parents) && Depths(ms, depth) && id in parents
    ensures HasChain(parents, id)
    decreases depth[id]
  {
    var m := ModuleOf(ms, id);
    if m.parent.None? {
      assert Chain(parents, [id]);
    } else {
      DepthGivesChain(ms, parents, depth, m.parent.value);
      var c := ChainOf(parents, m.parent.value);
      assert Chain(parents, [id] + c);
    }
  }

  method CollectModuleIds(ms: seq<Module>) returns (r: Option<set<string>>)
    ensures r.Some? <==> ModulesWellFormed(ms)
    ensures r.Some? ==> r.value == ModuleIds(ms)
  {
    var ids: set<string> := {};
    for i := 0 to |ms|
      invariant ids == ModuleIds(ms[..i]) && ModulesWellFormed(ms[..i])
    {
      var m := ms[i];
      assert ms[..i + 1] == ms[..i] + [m];
      if m.id in ids {
        ghost var n := ModuleOf(ms[..i], m.id);
        return None;
      }
      if m.id == "" || !OriginOk(m.origin) || (m.path == "") != m.parent.None? {
        return None;
      }
      assert ms[..i + 1][..i] == ms[..i];
      ids := ids + {m.id};
    }
    assert ms[..|ms|] == ms;
    return Some(ids);
  }

  method CollectParents(ms: seq<Module>) returns (parents: Parents)
    requires ModulesWellFormed(ms)
    ensures IsParentMap(ms, parents)
  {
    parents := map[];
    for i := 0 to |ms|
      invariant parents.Keys == ModuleIds(ms[..i])
      invariant forall k :: 0 <= k < i ==> ms[k].id in parents && parents[ms[k].id] == ms[k].parent
    {
      assert ms[..i + 1][..i] == ms[..i];
      parents := parents[ms[i].id := ms[i].parent];
    }
    assert ms[..|ms|] == ms;
  }

  /** The module-tree check: it accepts exactly the rooted trees. */
  method ValidateModuleTree(ms: seq<Module>) returns (r: Option<set<string>>)
    ensures r.Some? <==> RootedTree(ms)
    ensures r.Some? ==> r.value == ModuleIds(ms)
  {
    var ids := CollectModuleIds(ms);
    if ids.None? {
      return None;
    }
    if ids.value == {} {
      return None;
    }
    var parents := CollectParents(ms);
    var roots := set id | id in parents && parents[id].None?;
    RootCount(ms, parents, roots);
    if |roots| != 1 {
      return None;
    }
    ChainsIffDepths(ms, parents);
    for i := 0 to |ms|
      invariant forall k :: 0 <= k < i ==> HasChain(parents, ms[k].id)
    {
      var ok := WalkToRoot(parents, ms[i].id);
      if !ok {
        return None;
      }
    }
    forall id | id in parents ensures HasChain(parents, id) {
      var m := ModuleOf(ms, id);
    }
    return ids;
  }

  lemma RootCount(ms: seq<Module>, parents: Parents, roots: set<string>)
    requires IsParentMap(ms, parents)
    requires forall i, j :: 0 <= i < j < |ms| ==> ms[i].id != ms[j].id
    requires roots == set id | id in parents && parents[id].None?
    ensures |roots| == 1 <==> OneRoot(ms)
  {
    if |roots| == 1 {
      var id :| id in roots;
      var root := ModuleOf(ms, id);
      assert roots == {id} by {
        assert |roots - {id}| == 0;
      }
      forall m | m in ms ensures m.parent.None? <==> m == root {
        if m.parent.None? { assert m.id in roots; }
      }
    }
    if OneRoot(ms) {
      var root :| root in ms && forall m :: m in ms ==> (m.parent.None? <==> m == root);
      forall id ensures id in roots <==> id == root.id {
        if id in roots {
          var m := ModuleOf(ms, id);
        }
      }
      assert roots == {root.id};
    }
  }

  /** The verdict does not depend on the order in which the modules were captured. */
  lemma TreeVerdictIgnoresOrder(ms: seq<Module>, ns: seq<Module>)
    requires multiset(ms) == multiset(ns)
    ensures RootedTree(ms) <==> RootedTree(ns)
  {
    if RootedTree(ms) { TreeVerdictOneWay(ms, ns); }
    if RootedTree(ns) { TreeVerdictOneWay(ns, ms); }
  }

  lemma TreeVerdictOneWay(ms: seq<Module>, ns: seq<Module>)
    requires multiset(ms) == multiset(ns) && RootedTree(ms)
    ensures RootedTree(ns)
  {
    SameMembers(ms, ns);
    forall id ensures id in ModuleIds(ms) <==> id in ModuleIds(ns) {
      if id in ModuleIds(ms) { var m := ModuleOf(ms, id); }
      if id in ModuleIds(ns) { var m := ModuleOf(ns, id); }
    }
    var depth :| Depths(ms, depth);
    assert Depths(ns, depth);
    DistinctIds(ms, ns);
    var root :| root in ms && forall m :: m in ms ==> (m.parent.None? <==> m == root);
    assert root in ns;
    assert OneRoot(ns);
  }

  lemma DistinctIds(ms: seq<Module>, ns: seq<Module>)
    requires multiset(ms) == multiset(ns)
    requires forall i, j :: 0 <= i < j < |ms| ==> ms[i].id != ms[j].id
    ensures forall i, j :: 0 <= i < j < |ns| ==> ns[i].id != ns[j].id
  {
    forall i, j | 0 <= i < j < |ns| ensures ns[i].id != ns[j].id {
      SameMembers(ms, ns);
      assert ns[i] in ms && ns[j] in ms;
      var k :| 0 <= k < |ms| && ms[k] == ns[i];
      var l :| 0 <= l < |ms| && ms[l] == ns[j];
      if k == l {
        CountTwice(ns, i, j);
        CountOnce(ms, k);
      }
    }
  }

  /** In a valid tree every module's parent chain ends at the one root, in as many steps as the
      module is deep. */
  lemma {:induction false} ChainReachesRoot(ms: seq<Module>, root: Module, depth: map<string, nat>, m: Module)
    returns (chain: seq<Module>)
    requires ModulesWellFormed(ms) && Depths(ms, depth) && m in ms
    requires root in ms && forall n :: n in ms ==> (n.parent.None? <==> n == root)
    ensures |chain| == depth[m.id] + 1 && chain[0] == m && chain[|chain| - 1] == root
    ensures forall i :: 0 <= i < |chain| ==> chain[i] in ms
    ensures forall i :: 0 <= i < |chain| - 1 ==> chain[i].parent == Some(chain[i + 1].id)
    decreases depth[m.id]
  {
    if m == root {
      chain := [m];
    } else {
      var p := ModuleOf(ms, m.parent.value);
      var rest := ChainReachesRoot(ms, root, depth, p);
      chain := [m] + rest;
    }
  }

  // ----- The whole capture -----

  ghost function DeclarationIds(ds: seq<Declaration>): set<string> {
    set d | d in ds :: d.id
  }

  ghost predicate DeclarationsOk(ds: seq<Declaration>, modules: set<string>) {
    && (forall d :: d in ds ==> d.id != "" && OriginOk(d.origin) && d.moduleId in modules && d.kind != "")
    && (forall i, j :: 0 <= i < j < |ds| ==> ds[i].id != ds[j].id)
  }

  predicate ReferenceOk(r: Reference, declarations: set<string>, ownerCrate: string) {
    && r.sourceId in declarations
    && OriginOk(r.origin)
    && match r.target
       case Local(id) => id in declarations
       case External(crateId, crateName, definitionId, _, moduleId) =>
         crateId != "" && crateName != "" && definitionId != "" && moduleId != "" && crateId != ownerCrate
       case Unknown(reason) => reason != ""
  }

  ghost predicate CaptureOk(c: Capture) {
    && c.modelVersion == MODEL_VERSION && c.crateId != ""
    && c.excluded <= INFRASTRUCTURE
    && RootedTree(c.modules)
    && DeclarationsOk(c.declarations, ModuleIds(c.modules))
    && (forall r :: r in c.references ==> ReferenceOk(r, DeclarationIds(c.declarations), c.crateId))
    && c.covered <= Elements(CATEGORIES)
  }

  method ValidateDeclarations(ds: seq<Declaration>, modules: set<string>) returns (r: Option<set<string>>)
    ensures r.Some? <==> DeclarationsOk(ds, modules)
    ensures r.Some? ==> r.value == DeclarationIds(ds)
  {
    var ids: set<string> := {};
    for i := 0 to |ds|
      invariant ids == DeclarationIds(ds[..i]) && DeclarationsOk(ds[..i], modules)
    {
      var d := ds[i];
      assert ds[..i + 1] == ds[..i] + [d];
      if d.id in ids {
        ghost var e :| e in ds[..i] && e.id == d.id;
      }
      if d.id == "" || d.id in ids || !OriginOk(d.origin) || d.moduleId !in modules || d.kind == "" {
        assert d in ds;
        return None;
      }
      assert ids + {d.id} == DeclarationIds(ds[..i + 1]);
      ids := ids + {d.id};
    }
    assert ds[..|ds|] == ds;
    return Some(ids);
  }

  method ValidateCapture(c: Capture) returns (ok: bool)
    ensures ok <==> CaptureOk(c)
  {
    if c.modelVersion != MODEL_VERSION || c.crateId == "" || !(c.excluded <= INFRASTRUCTURE) {
      return false;
    }
    var modules := ValidateModuleTree(c.modules);
    if modules.None? {
      return false;
    }
    var declarations := ValidateDeclarations(c.declarations, modules.value);
    if declarations.None? {
      return false;
    }
    for i := 0 to |c.references|
      invariant forall k :: 0 <= k < i ==> ReferenceOk(c.references[k], declarations.value, c.crateId)
    {
      if !ReferenceOk(c.references[i], declarations.value, c.crateId) {
        return false;
      }
    }
    var categories := set x | x in CATEGORIES;
    return c.covered <= categories;
  }

  // ----- Missing evidence -----

  predicate Unattributed(c: Capture) {
    || (exists m :: m in c.modules && m.origin.location.None?)
    || (exists d :: d in c.declarations && d.origin.location.None?)
    || (exists r :: r in c.references && r.origin.location.None?)
  }

  function UncoveredReasons(covered: set<string>, categories: seq<string>): seq<string> {
    if categories == [] then []
    else
      (if categories[0] in covered then [] else ["architecture traversal missing " + categories[0]])
      + UncoveredReasons(covered, categories[1..])
  }

  function MissingEvidence(c: Capture): seq<string> {
    c.limitations
    + UncoveredReasons(c.covered, CATEGORIES)
    + (if exists r :: r in c.references && r.target.Unknown? then ["architecture contains unknown reference targets"] else [])
    + (if Unattributed(c) then ["architecture has unattributable declarations or references"] else [])
  }

  /** Nothing is missing exactly when the capture states no limitation, traversed every category,
      resolved every target and located everything it names. */
  lemma NothingMissing(c: Capture)
    ensures MissingEvidence(c) == [] <==>
            && c.limitations == []
            && Elements(CATEGORIES) <= c.covered
            && (forall r :: r in c.references ==> !r.target.Unknown? && r.origin.location.Some?)
            && (forall m :: m in c.modules ==> m.origin.location.Some?)
            && (forall d :: d in c.declarations ==> d.origin.location.Some?)
  {
    UncoveredNone(c.covered, CATEGORIES);
  }

  lemma {:induction false} UncoveredNone(covered: set<string>, categories: seq<string>)
    ensures UncoveredReasons(covered, categories) == [] <==> Elements(categories) <= covered
  {
    if categories != [] {
      UncoveredNone(covered, categories[1..]);
      assert Elements(categories) == {categories[0]} + Elements(categories[1..]);
    }
  }
}
