/** Type-health rows projected from the compiler inventory, and the two checks that consume them
    (src/compiler_inventory/projection.rs, src/contracts/validation.rs). */
module TypeRows {
  import opened Order
  import opened Origins
  import opened Profiles
  import opened Inventories

  /** One row of type_health.json; `None` is the JSON null. */
  datatype Row = Row(source: string, inventoryModelVersion: nat, identityBackend: string,
                     typeName: string, qualifiedName: string, kind: string,
                     definitionId: string, contextId: string, context: Context,
                     packageName: string, targetName: string, origin: Origin,
                     path: Option<string>, line: Option<nat>,
                     fieldCount: nat, variantCount: nat, variantFieldCount: nat,
                     methodCount: Option<nat>, implBlockCount: Option<nat>, implFileCount: Option<nat>,
                     observedMethodCount: nat, observedImplBlockCount: nat, observedImplFileCount: nat,
                     implFiles: set<string>, implementations: seq<ImplRecord>,
                     structuralRisk: Option<real>, structuralScore: Option<real>, scoreStatus: string,
                     confidence: Confidence)

  // ----- Producing rows -----

  function OwnedBy(ims: seq<ImplRecord>, id: string): seq<ImplRecord> {
    if ims == [] then []
    else OwnedBy(ims[..|ims| - 1], id) + if ims[|ims| - 1].ownerId == Some(id) then [ims[|ims| - 1]] else []
  }

  function MethodSet(ims: seq<ImplRecord>): set<string> {
    set m | m in AllMethods(ims)
  }

  function ImplFiles(ims: seq<ImplRecord>): set<string> {
    set i | i in ims && i.origin.location.Some? :: i.origin.location.value.path
  }

  function When(complete: bool, n: nat): Option<nat> {
    if complete then Some(n) else None
  }

  function TypeRow(p: Profile, t: TypeRecord, confidence: Confidence, h: ContextHash): Row {
    var impls := OwnedBy(p.impls, t.id);
    var methods, files, complete := MethodSet(impls), ImplFiles(impls), confidence.complete;
    Row("compiler_type_inventory", 1, "rustc-hir", t.name, t.qualifiedName, t.kind, t.id, p.ContextId(h),
        p.CompilerContext(), p.packageName, p.crateName, t.origin,
        if t.origin.location.Some? then Some(t.origin.location.value.path) else None,
        if t.origin.location.Some? then Some(t.origin.location.value.line) else None,
        t.fieldCount, t.variantCount, t.variantFieldCount,
        When(complete, |methods|), When(complete, |impls|), When(complete, |files|),
        |methods|, |impls|, |files|, files, impls, None, None, "not_calibrated_for_compiler_inventory", confidence)
  }

  function ProfileRows(p: Profile, types: seq<TypeRecord>, confidence: Confidence, h: ContextHash): seq<Row> {
    seq(|types|, i requires 0 <= i < |types| => TypeRow(p, types[i], confidence, h))
  }

  function RowsOf(ps: seq<Profile>, confidence: Confidence, h: ContextHash): seq<Row> {
    if ps == [] then []
    else
      var last := ps[|ps| - 1];
      RowsOf(ps[..|ps| - 1], confidence, h) + ProfileRows(last, last.types, confidence, h)
  }

  function InventoryRows(inv: Inventory, fingerprintComplete: bool, h: ContextHash): seq<Row> {
    RowsOf(inv.profiles, TypeConfidence(inv, fingerprintComplete), h)
  }

  // ----- Checking one row's projection -----

  function ImplIdentities(id: string, ims: seq<ImplRecord>): seq<string> {
    [id] + ImplIds(ims)
  }

  ghost predicate ImplementationsOk(ims: seq<ImplRecord>, id: string, origin: Origin) {
    && OriginOk(origin)
    && Distinct(ImplIdentities(id, ims)) && "" !in ImplIdentities(id, ims)
    && (forall i :: i in ims ==> OriginOk(i.origin) && i.ownerKind == "local_adt" && i.ownerId == Some(id))
    && Distinct(AllMethods(ims)) && "" !in AllMethods(ims)
  }

  ghost predicate ProjectionOk(row: Row, h: ContextHash) {
    && ContextOk(row.context) && row.contextId == h(row.context)
    && ImplementationsOk(row.implementations, row.definitionId, row.origin)
    && (row.confidence.complete ==>
          row.origin.location.Some? && forall i :: i in row.implementations ==> i.origin.location.Some?)
    && row.path == (if row.origin.location.Some? then Some(row.origin.location.value.path) else None)
    && row.line == (if row.origin.location.Some? then Some(row.origin.location.value.line) else None)
    && row.implFiles == ImplFiles(row.implementations)
    && row.observedMethodCount == |AllMethods(row.implementations)|
    && row.methodCount == When(row.confidence.complete, |AllMethods(row.implementations)|)
    && row.observedImplBlockCount == |row.implementations|
    && row.implBlockCount == When(row.confidence.complete, |row.implementations|)
    && row.observedImplFileCount == |ImplFiles(row.implementations)|
    && row.implFileCount == When(row.confidence.complete, |ImplFiles(row.implementations)|)
  }

  lemma {:induction false} DistinctCount(xs: seq<string>)
    requires Distinct(xs)
    ensures |Elements(xs)| == |xs|
  {
    if xs != [] {
      var front, last := xs[..|xs| - 1], xs[|xs| - 1];
      DistinctCount(front);
      assert Elements(xs) == Elements(front) + {last};
      assert last !in front;
    }
  }

  /** The checker's loop over one type's implementations; it returns the number of methods. */
  method ValidateImplementations(ims: seq<ImplRecord>, id: string, origin: Origin) returns (methods: Option<nat>)
    ensures methods.Some? <==> ImplementationsOk(ims, id, origin)
    ensures methods.Some? ==> methods.value == |AllMethods(ims)|
  {
    if id == "" || !OriginOk(origin) {
      assert id in ImplIdentities(id, ims);
      return None;
    }
    var distinct, known := Define(ImplIds(ims), [id], {id});
    assert ImplIdentities(id, ims) == [id] + ImplIds(ims);
    if !distinct || !(forall i :: i in ims ==> OriginOk(i.origin) && i.ownerKind == "local_adt" && i.ownerId == Some(id)) {
      return None;
    }
    var seen: set<string> := {};
    for i := 0 to |ims|
      invariant seen == Elements(AllMethods(ims[..i]))
      invariant Distinct(AllMethods(ims[..i])) && "" !in AllMethods(ims[..i])
    {
      assert ims[..i + 1][..i] == ims[..i];
      assert AllMethods(ims[..i + 1]) == AllMethods(ims[..i]) + ims[i].methodIds;
      MethodsPrefix(ims, i + 1);
      var ok;
      ok, seen := Define(ims[i].methodIds, AllMethods(ims[..i]), seen);
      if !ok {
        return None;
      }
    }
    assert ims[..|ims|] == ims;
    DistinctCount(AllMethods(ims));
    return Some(|seen|);
  }

  method ValidateTypeProjection(row: Row, h: ContextHash) returns (ok: bool)
    ensures ok <==> ProjectionOk(row, h)
  {
    if !ContextOk(row.context) || row.contextId != h(row.context) {
      return false;
    }
    var methods := ValidateImplementations(row.implementations, row.definitionId, row.origin);
    if methods.None? {
      return false;
    }
    var files, complete := ImplFiles(row.implementations), row.confidence.complete;
    if complete
       && !(row.origin.location.Some? && forall i :: i in row.implementations ==> i.origin.location.Some?) {
      return false;
    }
    return
      && row.path == (if row.origin.location.Some? then Some(row.origin.location.value.path) else None)
      && row.line == (if row.origin.location.Some? then Some(row.origin.location.value.line) else None)
      && row.implFiles == files
      && row.observedMethodCount == methods.value && row.methodCount == When(complete, methods.value)
      && row.observedImplBlockCount == |row.implementations|
      && row.implBlockCount == When(complete, |row.implementations|)
      && row.observedImplFileCount == |files| && row.implFileCount == When(complete, |files|);
  }

  // ----- Checking the artifact's rows -----

  predicate Compiled(row: Row) {
    row.source == "compiler_type_inventory"
  }

  ghost predicate TypeHealthOk(row: Row, h: ContextHash) {
    && row.confidence.complete != row.confidence.partial
    && (Compiled(row) ==>
          && row.inventoryModelVersion == 1 && row.definitionId != "" && row.contextId != ""
          && row.identityBackend == "rustc-hir" && row.confidence.scope == "compiler_type_inventory"
          && row.scoreStatus == "not_calibrated_for_compiler_inventory"
          && ProjectionOk(row, h))
    && row.methodCount.Some? == row.implBlockCount.Some? == row.implFileCount.Some? == row.confidence.complete
    && row.structuralRisk.Some? == row.structuralScore.Some? == (row.confidence.complete && !Compiled(row))
  }

  function Key(row: Row): (string, string) {
    (row.contextId, row.definitionId)
  }

  ghost predicate KeysDistinct(rows: seq<Row>) {
    forall i, j :: 0 <= i < j < |rows| && Compiled(rows[i]) && Compiled(rows[j]) ==> Key(rows[i]) != Key(rows[j])
  }

  ghost predicate RowHealthy(row: Row, complete: bool, h: ContextHash) {
    TypeHealthOk(row, h) && (complete ==> row.confidence.complete)
  }

  ghost predicate RowsOk(rows: seq<Row>, complete: bool, h: ContextHash) {
    (forall r :: r in rows ==> RowHealthy(r, complete, h)) && KeysDistinct(rows)
  }

  method ValidateTypeHealth(row: Row, h: ContextHash) returns (ok: bool)
    ensures ok <==> TypeHealthOk(row, h)
  {
    if row.confidence.complete == row.confidence.partial {
      return false;
    }
    if Compiled(row) {
      if !(row.inventoryModelVersion == 1 && row.definitionId != "" && row.contextId != ""
           && row.identityBackend == "rustc-hir" && row.confidence.scope == "compiler_type_inventory"
           && row.scoreStatus == "not_calibrated_for_compiler_inventory") {
        return false;
      }
      var projected := ValidateTypeProjection(row, h);
      if !projected {
        return false;
      }
    }
    return
      && row.methodCount.Some? == row.implBlockCount.Some? == row.implFileCount.Some? == row.confidence.complete
      && row.structuralRisk.Some? == row.structuralScore.Some? == (row.confidence.complete && !Compiled(row));
  }

  ghost function CompiledKeys(rows: seq<Row>): set<(string, string)> {
    if rows == [] then {}
    else CompiledKeys(rows[..|rows| - 1]) + if Compiled(rows[|rows| - 1]) then {Key(rows[|rows| - 1])} else {}
  }

  lemma {:induction false} KeyListed(rows: seq<Row>, key: (string, string))
    ensures key in CompiledKeys(rows) <==> exists k :: 0 <= k < |rows| && Compiled(rows[k]) && Key(rows[k]) == key
  {
    if rows != [] {
      KeyListed(rows[..|rows| - 1], key);
    }
  }

  lemma KeysStep(rows: seq<Row>, row: Row)
    ensures KeysDistinct(rows + [row]) <==>
            KeysDistinct(rows) && (Compiled(row) ==> Key(row) !in CompiledKeys(rows))
  {
    KeyListed(rows, Key(row));
    var more := rows + [row];
    assert more[|rows|] == row && forall k :: 0 <= k < |rows| ==> more[k] == rows[k];
  }

  /** The first `n` rows are healthy and their keys distinct. */
  ghost predicate RowsOkSoFar(rows: seq<Row>, n: nat, complete: bool, h: ContextHash) {
    n <= |rows| && (forall k :: 0 <= k < n ==> RowHealthy(rows[k], complete, h)) && KeysDistinct(rows[..n])
  }

  lemma RowsOkBefore(rows: seq<Row>, n: nat, complete: bool, h: ContextHash)
    requires n <= |rows|
    ensures RowsOkSoFar(rows, |rows|, complete, h) ==> RowsOkSoFar(rows, n, complete, h)
    ensures RowsOkSoFar(rows, |rows|, complete, h) <==> RowsOk(rows, complete, h)
  {
    assert rows[..|rows|] == rows;
  }

  lemma RowsSoFar(rows: seq<Row>, i: nat)
    requires i < |rows|
    ensures KeysDistinct(rows[..i + 1]) <==>
              KeysDistinct(rows[..i]) && (Compiled(rows[i]) ==> Key(rows[i]) !in CompiledKeys(rows[..i]))
    ensures CompiledKeys(rows[..i + 1]) ==
              CompiledKeys(rows[..i]) + if Compiled(rows[i]) then {Key(rows[i])} else {}
  {
    assert rows[..i + 1] == rows[..i] + [rows[i]] && rows[..i + 1][..i] == rows[..i];
    KeysStep(rows[..i], rows[i]);
  }

  method ValidateRow(row: Row, complete: bool, h: ContextHash) returns (ok: bool)
    ensures ok <==> RowHealthy(row, complete, h)
  {
    var healthy := ValidateTypeHealth(row, h);
    return healthy && (complete ==> row.confidence.complete);
  }

  method ValidateNextRow(rows: seq<Row>, i: nat, definitions: set<(string, string)>, complete: bool, h: ContextHash)
    returns (ok: bool, definitions': set<(string, string)>)
    requires i < |rows| && RowsOkSoFar(rows, i, complete, h) && definitions == CompiledKeys(rows[..i])
    ensures ok <==> RowsOkSoFar(rows, i + 1, complete, h)
    ensures ok ==> definitions' == CompiledKeys(rows[..i + 1])
  {
    RowsSoFar(rows, i);
    definitions' := definitions;
    ok := ValidateRow(rows[i], complete, h);
    if ok && Compiled(rows[i]) {
      ok := Key(rows[i]) !in definitions;
      definitions' := definitions + {Key(rows[i])};
    }
  }

  method ValidateRows(rows: seq<Row>, complete: bool, h: ContextHash) returns (ok: bool)
    ensures ok <==> RowsOk(rows, complete, h)
  {
    var definitions: set<(string, string)> := {};
    RowsOkBefore(rows, 0, complete, h);
    for i := 0 to |rows|
      invariant RowsOkSoFar(rows, i, complete, h) && definitions == CompiledKeys(rows[..i])
    {
      RowsOkBefore(rows, i + 1, complete, h);
      ok, definitions := ValidateNextRow(rows, i, definitions, complete, h);
      if !ok {
        return false;
      }
    }
    return true;
  }

  // ----- Producer and checkers agree -----

  lemma {:induction false} OwnedMembers(ims: seq<ImplRecord>, id: string)
    ensures forall i :: i in OwnedBy(ims, id) <==> i in ims && i.ownerId == Some(id)
  {
    if ims != [] {
      OwnedMembers(ims[..|ims| - 1], id);
      assert ims == ims[..|ims| - 1] + [ims[|ims| - 1]];
    }
  }

  lemma {:induction false} OwnedIds(ims: seq<ImplRecord>, id: string)
    requires Distinct(ImplIds(ims))
    ensures Distinct(ImplIds(OwnedBy(ims, id)))
    ensures forall x :: x in ImplIds(OwnedBy(ims, id)) ==> x in ImplIds(ims)
  {
    if ims != [] {
      var front, last := ims[..|ims| - 1], ims[|ims| - 1];
      assert ImplIds(ims) == ImplIds(front) + [last.id];
      DistinctPrefix(ImplIds(front), [last.id]);
      OwnedIds(front, id);
      if last.ownerId == Some(id) {
        var owned := OwnedBy(front, id);
        assert ImplIds(OwnedBy(ims, id)) == ImplIds(owned) + [last.id];
        DistinctConcat(ImplIds(owned), [last.id]);
      } else {
        assert OwnedBy(ims, id) == OwnedBy(front, id);
      }
    }
  }

  lemma {:induction false} OwnedMethods(ims: seq<ImplRecord>, id: string)
    requires Distinct(AllMethods(ims))
    ensures Distinct(AllMethods(OwnedBy(ims, id)))
    ensures forall m :: m in AllMethods(OwnedBy(ims, id)) ==> m in AllMethods(ims)
  {
    if ims != [] {
      var front, last := ims[..|ims| - 1], ims[|ims| - 1];
      DistinctPrefix(AllMethods(front), last.methodIds);
      SuffixDistinct(AllMethods(front), last.methodIds);
      OwnedMethods(front, id);
      if last.ownerId == Some(id) {
        var owned := OwnedBy(front, id);
        assert OwnedBy(ims, id)[..|owned|] == owned;
        DistinctConcat(AllMethods(owned), last.methodIds);
      } else {
        assert OwnedBy(ims, id) == OwnedBy(front, id);
      }
    }
  }

  lemma DistinctConcat(xs: seq<string>, ys: seq<string>)
    requires Distinct(xs) && Distinct(ys) && forall x :: x in xs ==> x !in ys
    ensures Distinct(xs + ys)
  {
    forall i, j | 0 <= i < j < |xs + ys| ensures (xs + ys)[i] != (xs + ys)[j] {
      if i < |xs| <= j {
        assert xs[i] in xs && ys[j - |xs|] in ys;
      }
    }
  }

  lemma SuffixDistinct(xs: seq<string>, ys: seq<string>)
    requires Distinct(xs + ys)
    ensures Distinct(ys)
  {
    forall i, j | 0 <= i < j < |ys| ensures ys[i] != ys[j] {
      assert (xs + ys)[|xs| + i] == ys[i] && (xs + ys)[|xs| + j] == ys[j];
    }
  }

  lemma TypeIdsDistinct(p: Profile)
    requires ProfileOk(p)
    ensures Distinct(TypeIds(p.types))
  {
    assert DefinitionIds(p) == TypeIds(p.types) + (FunctionIds(p.functions) + ImplIds(p.impls));
    DistinctPrefix(TypeIds(p.types), FunctionIds(p.functions) + ImplIds(p.impls));
  }

  /** A type's id is none of its profile's impl ids, and none of these is repeated or empty. */
  lemma TypeAmongIds(p: Profile, t: TypeRecord)
    requires ProfileOk(p) && t in p.types
    ensures Distinct(ImplIds(p.impls)) && t.id !in ImplIds(p.impls)
    ensures t.id != "" && "" !in ImplIds(p.impls)
  {
    var ids, fns, ims := TypeIds(p.types), FunctionIds(p.functions), ImplIds(p.impls);
    var k :| 0 <= k < |p.types| && p.types[k] == t;
    assert ids[k] == t.id && t.id in DefinitionIds(p);
    assert DefinitionIds(p) == ids + (fns + ims) == (ids + fns) + ims;
    DistinctPrefix(ids, fns + ims);
    SuffixDistinct(ids + fns, ims);
    forall x | x in ims ensures x in DefinitionIds(p) && x != t.id {
      var j :| 0 <= j < |ims| && ims[j] == x;
      assert DefinitionIds(p)[|ids| + |fns| + j] == x && DefinitionIds(p)[k] == t.id;
    }
  }

  lemma OwnedAccepted(p: Profile, t: TypeRecord)
    requires ProfileOk(p) && t in p.types
    ensures ImplementationsOk(OwnedBy(p.impls, t.id), t.id, t.origin)
  {
    TypeAmongIds(p, t);
    OwnedMembers(p.impls, t.id);
    OwnedIds(p.impls, t.id);
    OwnedMethods(p.impls, t.id);
  }

  /** Every row of a valid profile passes the projection check and the row check. */
  lemma TypeRowAccepted(p: Profile, t: TypeRecord, confidence: Confidence, h: ContextHash)
    requires ProfileOk(p) && t in p.types && p.ContextId(h) != ""
    requires confidence.complete ==> Attributed(p)
    requires confidence.complete != confidence.partial && confidence.scope == "compiler_type_inventory"
    ensures TypeHealthOk(TypeRow(p, t, confidence, h), h)
  {
    var impls := OwnedBy(p.impls, t.id);
    OwnedAccepted(p, t);
    OwnedMembers(p.impls, t.id);
    TypeAmongIds(p, t);
    DistinctCount(AllMethods(impls));
    assert MethodSet(impls) == Elements(AllMethods(impls));
  }

  lemma ProfileRowsDistinct(p: Profile, confidence: Confidence, h: ContextHash)
    requires ProfileOk(p)
    ensures KeysDistinct(ProfileRows(p, p.types, confidence, h))
  {
    var rows := ProfileRows(p, p.types, confidence, h);
    var ids := TypeIds(p.types);
    TypeIdsDistinct(p);
    forall i, j | 0 <= i < j < |rows| ensures Key(rows[i]) != Key(rows[j]) {
      assert Key(rows[i]).1 == ids[i] && Key(rows[j]).1 == ids[j];
    }
  }

  lemma {:induction false} RowContexts(ps: seq<Profile>, confidence: Confidence, h: ContextHash)
    ensures forall r :: r in RowsOf(ps, confidence, h) ==> r.contextId in ContextIds(ps, h)
  {
    if ps != [] {
      var front, last := ps[..|ps| - 1], ps[|ps| - 1];
      RowContexts(front, confidence, h);
      assert ContextIds(front, h) <= ContextIds(ps, h);
      var rows := ProfileRows(last, last.types, confidence, h);
      assert forall i :: 0 <= i < |rows| ==> rows[i].contextId == last.ContextId(h);
    }
  }

  lemma {:induction false} RowKeysDistinct(ps: seq<Profile>, confidence: Confidence, h: ContextHash)
    requires (forall p :: p in ps ==> ProfileOk(p)) && ContextIdsDistinct(ps, h)
    ensures KeysDistinct(RowsOf(ps, confidence, h))
  {
    if ps != [] {
      var front, last := ps[..|ps| - 1], ps[|ps| - 1];
      var before, rows := RowsOf(front, confidence, h), ProfileRows(last, last.types, confidence, h);
      assert last in ps;
      RowKeysDistinct(front, confidence, h);
      ProfileRowsDistinct(last, confidence, h);
      RowContexts(front, confidence, h);
      forall i, j | 0 <= i < |before| && 0 <= j < |rows| ensures Key(before[i]) != Key(rows[j]) {
        assert before[i] in before;
        ContextListed(front, h, before[i].contextId);
        var k :| 0 <= k < |front| && front[k].ContextId(h) == before[i].contextId;
        assert ps[k] == front[k];
        assert Key(before[i]).0 != Key(rows[j]).0;
      }
    }
  }

  lemma ProfileRowsHealthy(p: Profile, confidence: Confidence, h: ContextHash, r: Row)
    requires ProfileOk(p) && p.ContextId(h) != "" && (confidence.complete ==> Attributed(p))
    requires confidence.complete != confidence.partial && confidence.scope == "compiler_type_inventory"
    requires r in ProfileRows(p, p.types, confidence, h)
    ensures RowHealthy(r, confidence.complete, h)
  {
    var i :| 0 <= i < |p.types| && r == TypeRow(p, p.types[i], confidence, h);
    TypeRowAccepted(p, p.types[i], confidence, h);
  }

  lemma {:induction false} RowsHealthy(ps: seq<Profile>, confidence: Confidence, h: ContextHash, r: Row)
    requires forall p :: p in ps ==> ProfileOk(p) && p.ContextId(h) != "" && (confidence.complete ==> Attributed(p))
    requires confidence.complete != confidence.partial && confidence.scope == "compiler_type_inventory"
    requires r in RowsOf(ps, confidence, h)
    ensures RowHealthy(r, confidence.complete, h)
  {
    var last := ps[|ps| - 1];
    assert last in ps;
    if r in ProfileRows(last, last.types, confidence, h) {
      ProfileRowsHealthy(last, confidence, h, r);
    } else {
      RowsHealthy(ps[..|ps| - 1], confidence, h, r);
    }
  }

  lemma ConfidenceShape(inv: Inventory, fingerprintComplete: bool)
    ensures var confidence := TypeConfidence(inv, fingerprintComplete);
            && confidence.complete != confidence.partial && confidence.scope == "compiler_type_inventory"
            && (confidence.complete ==> forall p :: p in inv.profiles ==> Attributed(p))
  {
  }

  /** The producer's artifact passes the artifact check, at the completeness the producer claims. */
  lemma InventoryRowsAccepted(inv: Inventory, fingerprintComplete: bool, h: ContextHash)
    requires InventoryOk(inv, h) && forall p :: p in inv.profiles ==> p.ContextId(h) != ""
    ensures RowsOk(InventoryRows(inv, fingerprintComplete, h), TypeConfidence(inv, fingerprintComplete).complete, h)
  {
    var confidence := TypeConfidence(inv, fingerprintComplete);
    ConfidenceShape(inv, fingerprintComplete);
    forall r | r in InventoryRows(inv, fingerprintComplete, h) ensures RowHealthy(r, confidence.complete, h) {
      RowsHealthy(inv.profiles, confidence, h, r);
    }
    RowKeysDistinct(inv.profiles, confidence, h);
  }

  // ----- What a row says -----

  /** The compiler's record of a type, read back from its row. */
  function RecordIn(row: Row): TypeRecord {
    TypeRecord(row.definitionId, row.qualifiedName, row.typeName, row.kind, row.fieldCount, row.variantCount,
               row.variantFieldCount, row.origin)
  }

  /** The row of a type in a profile: it gives the type's record back, names the profile's package, crate and context,
      and lists the profile's impls of that type. */
  ghost predicate Describes(row: Row, p: Profile, t: TypeRecord) {
    && RecordIn(row) == t && row.packageName == p.packageName && row.targetName == p.crateName
    && row.context.manifestDir == p.manifestDir && row.context.sourceRoot == p.sourceRoot
    && row.context.targetTriple == p.targetTriple && row.context.test == p.test && row.context.cfg == p.cfg
    && row.context.compilerVersion == p.compilerVersion
    && forall im :: multiset(row.implementations)[im] == if im.ownerId == Some(t.id) then multiset(p.impls)[im] else 0
  }

  lemma {:induction false} OwnedCounted(ims: seq<ImplRecord>, id: string, im: ImplRecord)
    ensures multiset(OwnedBy(ims, id))[im] == if im.ownerId == Some(id) then multiset(ims)[im] else 0
  {
    if ims != [] {
      assert ims == ims[..|ims| - 1] + [ims[|ims| - 1]];
      OwnedCounted(ims[..|ims| - 1], id, im);
    }
  }

  lemma RowDescribes(p: Profile, t: TypeRecord, confidence: Confidence, h: ContextHash)
    ensures Describes(TypeRow(p, t, confidence, h), p, t)
  {
    forall im ensures multiset(OwnedBy(p.impls, t.id))[im] == if im.ownerId == Some(t.id) then multiset(p.impls)[im] else 0 {
      OwnedCounted(p.impls, t.id, im);
    }
  }

  function TypeTotal(ps: seq<Profile>): nat {
    if ps == [] then 0 else TypeTotal(ps[..|ps| - 1]) + |ps[|ps| - 1].types|
  }

  lemma LastRows(ps: seq<Profile>, confidence: Confidence, h: ContextHash, row: Row)
    requires ps != []
    ensures var front, last := ps[..|ps| - 1], ps[|ps| - 1];
            row in RowsOf(ps, confidence, h) <==>
              row in RowsOf(front, confidence, h) || row in ProfileRows(last, last.types, confidence, h)
  {
  }

  /** Every type of every profile has its row. */
  lemma {:induction false} TypeHasRow(ps: seq<Profile>, p: Profile, t: TypeRecord, confidence: Confidence, h: ContextHash)
    returns (row: Row)
    requires p in ps && t in p.types
    ensures row in RowsOf(ps, confidence, h) && Describes(row, p, t)
  {
    var front, last := ps[..|ps| - 1], ps[|ps| - 1];
    if p == last {
      var k :| 0 <= k < |last.types| && last.types[k] == t;
      row := ProfileRows(last, last.types, confidence, h)[k];
      RowDescribes(last, t, confidence, h);
    } else {
      assert ps == front + [last];
      row := TypeHasRow(front, p, t, confidence, h);
    }
    LastRows(ps, confidence, h, row);
  }

  /** Every row is one of these. */
  lemma {:induction false} RowHasType(ps: seq<Profile>, row: Row, confidence: Confidence, h: ContextHash)
    returns (p: Profile, t: TypeRecord)
    requires row in RowsOf(ps, confidence, h)
    ensures p in ps && t in p.types && Describes(row, p, t) && row.confidence == confidence
  {
    var front, last := ps[..|ps| - 1], ps[|ps| - 1];
    var rows := ProfileRows(last, last.types, confidence, h);
    LastRows(ps, confidence, h, row);
    if row in rows {
      var k :| 0 <= k < |rows| && rows[k] == row;
      p, t := last, last.types[k];
      RowDescribes(p, t, confidence, h);
    } else {
      p, t := RowHasType(front, row, confidence, h);
      assert ps == front + [last];
    }
  }

  /** And there are as many rows as types. */
  lemma {:induction false} RowsCounted(ps: seq<Profile>, confidence: Confidence, h: ContextHash)
    ensures |RowsOf(ps, confidence, h)| == TypeTotal(ps)
  {
    if ps != [] { RowsCounted(ps[..|ps| - 1], confidence, h); }
  }

  // ----- Every owned impl is counted once -----

  function OwnedCount(ims: seq<ImplRecord>): nat {
    if ims == [] then 0 else OwnedCount(ims[..|ims| - 1]) + if ims[|ims| - 1].ownerId.Some? then 1 else 0
  }

  function BlockTotal(rows: seq<Row>): nat {
    if rows == [] then 0 else BlockTotal(rows[..|rows| - 1]) + rows[|rows| - 1].observedImplBlockCount
  }

  function OwnedByAny(ims: seq<ImplRecord>, ids: seq<string>): nat {
    if ids == [] then 0 else OwnedByAny(ims, ids[..|ids| - 1]) + |OwnedBy(ims, ids[|ids| - 1])|
  }

  lemma {:induction false} OneMoreImpl(ims: seq<ImplRecord>, ids: seq<string>)
    requires ims != [] && Distinct(ids)
    ensures OwnedByAny(ims, ids) == OwnedByAny(ims[..|ims| - 1], ids)
            + match ims[|ims| - 1].ownerId { case Some(id) => if id in ids then 1 else 0 case None => 0 }
  {
    if ids != [] {
      OneMoreImpl(ims, ids[..|ids| - 1]);
      assert ids == ids[..|ids| - 1] + [ids[|ids| - 1]];
      assert ids[|ids| - 1] !in ids[..|ids| - 1];
    }
  }

  lemma {:induction false} OwnedOnce(ims: seq<ImplRecord>, ids: seq<string>)
    requires Distinct(ids) && forall i :: i in ims && i.ownerId.Some? ==> i.ownerId.value in ids
    ensures OwnedByAny(ims, ids) == OwnedCount(ims)
  {
    if ims == [] {
      NoImpls(ids);
    } else {
      OneMoreImpl(ims, ids);
      assert ims[|ims| - 1] in ims;
      OwnedOnce(ims[..|ims| - 1], ids);
    }
  }

  lemma {:induction false} NoImpls(ids: seq<string>)
    ensures OwnedByAny([], ids) == 0
  {
    if ids != [] { NoImpls(ids[..|ids| - 1]); }
  }

  lemma {:induction false} BlocksPerType(p: Profile, types: seq<TypeRecord>, confidence: Confidence, h: ContextHash)
    ensures BlockTotal(ProfileRows(p, types, confidence, h)) == OwnedByAny(p.impls, TypeIds(types))
  {
    if types != [] {
      var front := types[..|types| - 1];
      BlocksPerType(p, front, confidence, h);
      assert ProfileRows(p, types, confidence, h)[..|front|] == ProfileRows(p, front, confidence, h);
      assert TypeIds(types)[..|front|] == TypeIds(front);
    }
  }

  lemma OwnersListed(p: Profile)
    requires ProfileOk(p)
    ensures forall i :: i in p.impls && i.ownerId.Some? ==> i.ownerId.value in TypeIds(p.types)
  {
  }

  /** The rows of a valid profile count every impl with a local owner exactly once. */
  lemma ImplBlocksConserved(p: Profile, confidence: Confidence, h: ContextHash)
    requires ProfileOk(p)
    ensures BlockTotal(ProfileRows(p, p.types, confidence, h)) == OwnedCount(p.impls)
  {
    BlocksPerType(p, p.types, confidence, h);
    TypeIdsDistinct(p);
    OwnersListed(p);
    OwnedOnce(p.impls, TypeIds(p.types));
  }
}
