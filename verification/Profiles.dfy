/** Compiler profiles: what one compilation context reports, and when a report of it is accepted
    (src/compiler_inventory.rs). */
module Profiles {
  import opened Order
  import opened Origins
  import Capture

  const COMPILER_VERSION: string := "rustc 1.95.0-nightly (a423f68a0 2026-02-13)"

  datatype TypeRecord = TypeRecord(id: string, qualifiedName: string, name: string, kind: string,
                                   fieldCount: nat, variantCount: nat, variantFieldCount: nat, origin: Origin)

  datatype ImplRecord = ImplRecord(id: string, ownerId: Option<string>, ownerDisplay: string,
                                   ownerKind: string, methodIds: seq<string>, origin: Origin)

  datatype FunctionRecord = FunctionRecord(id: string, qualifiedName: string, origin: Origin)

  datatype Context = Context(manifestDir: string, sourceRoot: string, targetTriple: string, test: bool,
                             cfg: seq<string>, compilerVersion: string)

  /** `stable_hash` of a context's JSON text; which hash it is does not matter here. */
  type ContextHash = Context -> string

  datatype Profile = Profile(schemaVersion: nat, backend: string, compilerVersion: string,
                             packageName: string, manifestDir: string, sourceRoot: string,
                             crateName: string, targetTriple: string, test: bool, cfg: seq<string>,
                             types: seq<TypeRecord>, impls: seq<ImplRecord>, functions: seq<FunctionRecord>,
                             architecture: Option<Capture.Capture>)
  {
    function CompilerContext(): Context {
      Context(manifestDir, sourceRoot, targetTriple, test, cfg, compilerVersion)
    }

    function ContextId(h: ContextHash): string {
      h(CompilerContext())
    }
  }

  predicate ContextOk(c: Context) {
    && IsAbsolute(c.sourceRoot) && IsAbsolute(c.manifestDir)
    && c.targetTriple != "" && c.compilerVersion == COMPILER_VERSION
    && c.cfg != []
    && (forall i :: 0 <= i < |c.cfg| - 1 ==> Less(c.cfg[i], c.cfg[i + 1]))
    && c.test == ("test" in c.cfg)
  }

  // ----- Validity of a profile, stated on its flattened lists -----

  function TypeIds(ts: seq<TypeRecord>): seq<string> {
    seq(|ts|, i requires 0 <= i < |ts| => ts[i].id)
  }

  function FunctionIds(fs: seq<FunctionRecord>): seq<string> {
    seq(|fs|, i requires 0 <= i < |fs| => fs[i].id)
  }

  function ImplIds(ims: seq<ImplRecord>): seq<string> {
    seq(|ims|, i requires 0 <= i < |ims| => ims[i].id)
  }

  function AllMethods(ims: seq<ImplRecord>): seq<string> {
    if ims == [] then [] else AllMethods(ims[..|ims| - 1]) + ims[|ims| - 1].methodIds
  }

  ghost predicate Distinct(xs: seq<string>) {
    forall i, j :: 0 <= i < j < |xs| ==> xs[i] != xs[j]
  }

  predicate TypeOk(t: TypeRecord) {
    t.kind in {"struct", "enum", "union"} && t.name != "" && t.qualifiedName != ""
  }

  predicate OwnerOk(imp: ImplRecord, types: set<string>) {
    match imp.ownerId
    case Some(id) => imp.ownerKind == "local_adt" && id in types
    case None => imp.ownerKind == "external_or_non_nominal"
  }

  ghost function DefinitionIds(p: Profile): seq<string> {
    TypeIds(p.types) + FunctionIds(p.functions) + ImplIds(p.impls)
  }

  /** One definition per identity, every impl owned by a listed type or by none, every method a
      listed function of exactly one impl. */
  ghost predicate ProfileOk(p: Profile) {
    && p.schemaVersion == 1 && p.backend == "rustc-hir" && p.compilerVersion == COMPILER_VERSION
    && ContextOk(p.CompilerContext())
    && (p.architecture.Some? ==> Capture.CaptureOk(p.architecture.value))
    && p.packageName != "" && p.crateName != ""
    && Distinct(DefinitionIds(p)) && "" !in DefinitionIds(p)
    && (forall t :: t in p.types ==> OriginOk(t.origin) && TypeOk(t))
    && (forall f :: f in p.functions ==> OriginOk(f.origin))
    && (forall i :: i in p.impls ==> OriginOk(i.origin) && OwnerOk(i, Elements(TypeIds(p.types))))
    && Distinct(AllMethods(p.impls))
    && (forall m :: m in AllMethods(p.impls) ==> m in FunctionIds(p.functions))
  }

  // ----- The validating loops -----

  lemma DistinctPrefix(xs: seq<string>, ys: seq<string>)
    requires Distinct(xs + ys)
    ensures Distinct(xs) && forall x :: x in xs ==> x !in ys
  {
    forall i, j | 0 <= i < j < |xs| ensures xs[i] != xs[j] {
      assert (xs + ys)[i] == xs[i] && (xs + ys)[j] == xs[j];
    }
    forall i, j | 0 <= i < |xs| && 0 <= j < |ys| ensures xs[i] != ys[j] {
      assert (xs + ys)[i] == xs[i] && (xs + ys)[|xs| + j] == ys[j];
    }
  }

  /** Registers the identities of one list after those already defined. */
  method Define(ids: seq<string>, ghost defined: seq<string>, known: set<string>) returns (ok: bool, known': set<string>)
    requires known == Elements(defined) && Distinct(defined) && "" !in defined
    ensures ok <==> Distinct(defined + ids) && "" !in defined + ids
    ensures ok ==> known' == Elements(defined + ids)
  {
    known' := known;
    for i := 0 to |ids|
      invariant Distinct(defined + ids[..i]) && "" !in defined + ids[..i]
      invariant known' == Elements(defined + ids[..i])
    {
      ghost var sofar := defined + ids[..i];
      assert defined + ids[..i + 1] == sofar + [ids[i]];
      assert defined + ids == sofar + [ids[i]] + ids[i + 1..];
      if ids[i] == "" || ids[i] in known' {
        if Distinct(defined + ids) {
          assert sofar + [ids[i]] + ids[i + 1..] == sofar + ([ids[i]] + ids[i + 1..]);
          DistinctPrefix(sofar, [ids[i]] + ids[i + 1..]);
        }
        return false, known';
      }
      known' := known' + {ids[i]};
    }
    assert ids[..|ids|] == ids;
    return true, known';
  }

  /** The methods of one impl: each a known function that no earlier impl claimed. */
  method Claim(ids: seq<string>, ghost before: seq<string>, claimed: set<string>, functions: set<string>)
    returns (ok: bool, claimed': set<string>)
    requires claimed == Elements(before) && Distinct(before)
    ensures ok <==> Distinct(before + ids) && forall m :: m in ids ==> m in functions
    ensures ok ==> claimed' == Elements(before + ids)
  {
    claimed' := claimed;
    for i := 0 to |ids|
      invariant Distinct(before + ids[..i]) && forall m :: m in ids[..i] ==> m in functions
      invariant claimed' == Elements(before + ids[..i])
    {
      ghost var sofar := before + ids[..i];
      assert before + ids[..i + 1] == sofar + [ids[i]];
      assert before + ids == sofar + ([ids[i]] + ids[i + 1..]);
      if ids[i] !in functions || ids[i] in claimed' {
        if Distinct(before + ids) {
          DistinctPrefix(sofar, [ids[i]] + ids[i + 1..]);
        }
        return false, claimed';
      }
      claimed' := claimed' + {ids[i]};
    }
    assert ids[..|ids|] == ids;
    return true, claimed';
  }

  method AssignMethods(ims: seq<ImplRecord>, functions: set<string>) returns (ok: bool)
    ensures ok <==> Distinct(AllMethods(ims)) && forall m :: m in AllMethods(ims) ==> m in functions
  {
    var claimed: set<string> := {};
    for i := 0 to |ims|
      invariant claimed == Elements(AllMethods(ims[..i])) && Distinct(AllMethods(ims[..i]))
      invariant forall m :: m in AllMethods(ims[..i]) ==> m in functions
    {
      assert ims[..i + 1][..i] == ims[..i];
      assert AllMethods(ims[..i + 1]) == AllMethods(ims[..i]) + ims[i].methodIds;
      ok, claimed := Claim(ims[i].methodIds, AllMethods(ims[..i]), claimed, functions);
      MethodsPrefix(ims, i + 1);
      if !ok {
        return;
      }
    }
    assert ims[..|ims|] == ims;
    return true;
  }

  lemma {:induction false} MethodsPrefix(ims: seq<ImplRecord>, k: nat)
    requires k <= |ims|
    ensures forall m :: m in AllMethods(ims[..k]) ==> m in AllMethods(ims)
    ensures Distinct(AllMethods(ims)) ==> Distinct(AllMethods(ims[..k]))
  {
    if k < |ims| {
      var front, last := AllMethods(ims[..|ims| - 1]), ims[|ims| - 1].methodIds;
      if Distinct(AllMethods(ims)) {
        DistinctPrefix(front, last);
      }
      MethodsPrefix(ims[..|ims| - 1], k);
      assert ims[..|ims| - 1][..k] == ims[..k];
    } else {
      assert ims[..k] == ims;
    }
  }

  method ValidateProfile(p: Profile) returns (ok: bool)
    ensures ok <==> ProfileOk(p)
  {
    if !(p.schemaVersion == 1 && p.backend == "rustc-hir" && p.compilerVersion == COMPILER_VERSION
         && ContextOk(p.CompilerContext())) {
      return false;
    }
    if p.architecture.Some? {
      var captured := Capture.ValidateCapture(p.architecture.value);
      if !captured {
        return false;
      }
    }
    if p.packageName == "" || p.crateName == "" {
      return false;
    }
    ghost var t, f, m := TypeIds(p.types), FunctionIds(p.functions), ImplIds(p.impls);
    var types, known, functions;
    assert [] + t == t && t + (f + m) == DefinitionIds(p) && t + f + m == DefinitionIds(p);
    ok, types := Define(TypeIds(p.types), [], {});
    if !ok || !(forall x :: x in p.types ==> OriginOk(x.origin) && TypeOk(x)) {
      if Distinct(DefinitionIds(p)) { DistinctPrefix(t, f + m); }
      return false;
    }
    ok, known := Define(FunctionIds(p.functions), t, types);
    if !ok || !(forall x :: x in p.functions ==> OriginOk(x.origin)) {
      if Distinct(DefinitionIds(p)) { DistinctPrefix(t + f, m); }
      return false;
    }
    functions := set x | x in FunctionIds(p.functions);
    ok, known := Define(ImplIds(p.impls), t + f, known);
    if !ok || !(forall x :: x in p.impls ==> OriginOk(x.origin) && OwnerOk(x, types)) {
      return false;
    }
    ok := AssignMethods(p.impls, functions);
  }
}
