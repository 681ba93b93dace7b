/** The practice projection and its inverse (src/findings/practices.rs, acceptance/reporter_campaign.py). */
module Practices {
  import opened Order
  import opened Json
  import Permutations

  /** JSON rendering and `stable_hash`, as parameters. */
  datatype Env = Env(text: Value -> string, hash: string -> string)

  datatype Observation = Observation(checkIndex: nat, diagnosticIndex: nat, diagnostic: Value)

  /** One projected finding: the shared payload and where it was observed. */
  datatype Group = Group(id: string, payload: Value, observations: seq<Observation>)

  type Groups = map<string, Group>

  // ----- Grouping one diagnostic -----

  function Strip(diagnostic: Value): Value {
    match diagnostic
    case Object(fields) => Object(Remove(Remove(fields, "id"), "identity_version"))
    case _ => diagnostic
  }

  function GroupKey(diagnostic: Value, env: Env): string {
    env.text(Strip(diagnostic))
  }

  function FindingId(key: string, env: Env): string {
    "rqlens:diagnostic:" + env.hash(key)
  }

  function GroupOf(groups: Groups, diagnostic: Value, env: Env): Group {
    var key := GroupKey(diagnostic, env);
    if key in groups then groups[key] else Group(FindingId(key, env), Strip(diagnostic), [])
  }

  function Reference(id: string, index: nat): Value {
    Object([Field("finding_id", Text(id)), Field("observation_index", Number(index))])
  }

  function Record(groups: Groups, o: Observation, env: Env): Groups {
    var g := GroupOf(groups, o.diagnostic, env);
    groups[GroupKey(o.diagnostic, env) := g.(observations := g.observations + [o])]
  }

  function ReferenceTo(groups: Groups, diagnostic: Value, env: Env): Value {
    var g := GroupOf(groups, diagnostic, env);
    Reference(g.id, |g.observations|)
  }

  // ----- Collecting, one list, one check, one document -----

  function CollectList(ds: seq<Value>, check: nat, n: nat, groups: Groups, env: Env): (seq<Value>, Groups)
    requires n <= |ds|
  {
    if n == 0 then ([], groups)
    else
      var before := CollectList(ds, check, n - 1, groups, env);
      (before.0 + [ReferenceTo(before.1, ds[n - 1], env)], Record(before.1, Observation(check, n - 1, ds[n - 1]), env))
  }

  /** The diagnostics of a check, if it has any inventory at all. */
  function Inventory(check: Value): Option<Value> {
    if check.Object? then Lookup(check.fields, "diagnostics") else None
  }

  function Diagnostics(check: Value): seq<Value> {
    match AsArray(Inventory(check)) case Some(items) => items case None => []
  }

  /** Removing the inventory and putting references in its place, when there was one. */
  function Replace(check: Value, references: seq<Value>): Value {
    if check.Object? && Lookup(check.fields, "diagnostics").Some?
    then Object(Insert(Remove(check.fields, "diagnostics"), "diagnostics", Array(references)))
    else check
  }

  /** What one turn of the loop over the checks makes of a check and the groups. */
  type Turn = (Value, nat, Groups) -> (Value, Groups)

  function TurnAll(turn: Turn, checks: seq<Value>, n: nat): (seq<Value>, Groups)
    requires n <= |checks|
  {
    if n == 0 then ([], map[])
    else
      var before := TurnAll(turn, checks, n - 1);
      var r := turn(checks[n - 1], n - 1, before.1);
      (before.0 + [r.0], r.1)
  }

  function Rewriting(env: Env): Turn {
    (check: Value, index: nat, groups: Groups) =>
      var ds := Diagnostics(check);
      var r := CollectList(ds, index, |ds|, groups, env);
      (Replace(check, r.0), r.1)
  }

  function CollectChecks(checks: seq<Value>, n: nat, env: Env): (seq<Value>, Groups)
    requires n <= |checks|
  {
    TurnAll(Rewriting(env), checks, n)
  }

  function Checks(document: Value): Option<seq<Value>> {
    if !document.Object? then None
    else match Lookup(document.fields, "data")
      case Some(Object(data)) => AsArray(Lookup(data, "checks"))
      case _ => None
  }

  function WithChecks(document: Value, checks: seq<Value>): Value
    requires Checks(document).Some?
  {
    var data := Lookup(document.fields, "data").value.fields;
    Object(Insert(document.fields, "data", Object(Insert(data, "checks", Array(checks)))))
  }

  function Collect(document: Value, env: Env): (Value, Groups) {
    match Checks(document)
    case None => (document, map[])
    case Some(checks) =>
      var r := CollectChecks(checks, |checks|, env);
      (WithChecks(document, r.0), r.1)
  }

  /** The nested loops that rewrite the checks in place while they fill the groups. */
  method CollectDiagnostics(document: Value, env: Env) returns (source: Value, groups: Groups)
    ensures (source, groups) == Collect(document, env)
  {
    groups := map[];
    if Checks(document).None? {
      return document, groups;
    }
    var checks := Checks(document).value;
    var rewritten: seq<Value> := [];
    for i := 0 to |checks|
      invariant (rewritten, groups) == CollectChecks(checks, i, env)
    {
      var references;
      references, groups := CollectCheck(Diagnostics(checks[i]), i, groups, env);
      rewritten := rewritten + [Replace(checks[i], references)];
    }
    source := WithChecks(document, rewritten);
  }

  method CollectCheck(diagnostics: seq<Value>, check: nat, start: Groups, env: Env)
    returns (references: seq<Value>, groups: Groups)
    ensures (references, groups) == CollectList(diagnostics, check, |diagnostics|, start, env)
  {
    references, groups := [], start;
    for j := 0 to |diagnostics|
      invariant (references, groups) == CollectList(diagnostics, check, j, start, env)
    {
      var reference;
      reference, groups := CollectOne(Observation(check, j, diagnostics[j]), groups, env);
      references := references + [reference];
    }
  }

  method CollectOne(o: Observation, before: Groups, env: Env) returns (reference: Value, groups: Groups)
    ensures reference == ReferenceTo(before, o.diagnostic, env) && groups == Record(before, o, env)
  {
    groups := before;
    var key := GroupKey(o.diagnostic, env);
    if key !in groups {
      groups := groups[key := Group(FindingId(key, env), Strip(o.diagnostic), [])];
    }
    var group := groups[key];
    reference := Reference(group.id, |group.observations|);
    groups := groups[key := group.(observations := group.observations + [o])];
  }

  // ----- Reconstructing -----

  type Findings = map<string, seq<Observation>>

  /** Follows one reference; it must lead to the observation of this very check and position. */
  function Follow(reference: Value, check: nat, position: nat, findings: Findings): Option<Value> {
    if !reference.Object? then None
    else match (AsText(Lookup(reference.fields, "finding_id")), Lookup(reference.fields, "observation_index"))
      case (Some(id), Some(Number(k))) =>
        if id in findings && 0 <= k < |findings[id]|
           && findings[id][k].checkIndex == check && findings[id][k].diagnosticIndex == position
        then Some(findings[id][k].diagnostic) else None
      case (_, _) => None
  }

  /** A reference is followed exactly when it leads to the observation of that check and position. */
  lemma FollowMeans(reference: Value, check: nat, position: nat, findings: Findings, diagnostic: Value)
    ensures Follow(reference, check, position, findings) == Some(diagnostic) <==>
            exists id, k: nat ::
              && reference.Object? && Lookup(reference.fields, "finding_id") == Some(Text(id))
              && Lookup(reference.fields, "observation_index") == Some(Number(k))
              && id in findings && k < |findings[id]| && findings[id][k] == Observation(check, position, diagnostic)
  {
  }

  function FollowAll(references: seq<Value>, check: nat, n: nat, findings: Findings): Option<seq<Value>>
    requires n <= |references|
  {
    if n == 0 then Some([])
    else match (FollowAll(references, check, n - 1, findings), Follow(references[n - 1], check, n - 1, findings))
      case (Some(front), Some(last)) => Some(front + [last])
      case (_, _) => None
  }

  function RestoreCheck(check: Value, index: nat, findings: Findings): Option<Value> {
    match Inventory(check)
    case None => Some(check)
    case Some(Array(references)) =>
      (match FollowAll(references, index, |references|, findings)
       case Some(originals) => Some(Object(Insert(check.fields, "diagnostics", Array(originals))))
       case None => None)
    case Some(_) => None
  }

  function RestoreChecks(checks: seq<Value>, n: nat, findings: Findings): Option<seq<Value>>
    requires n <= |checks|
  {
    if n == 0 then Some([])
    else match (RestoreChecks(checks, n - 1, findings), RestoreCheck(checks[n - 1], n - 1, findings))
      case (Some(front), Some(last)) => Some(front + [last])
      case (_, _) => None
  }

  function Restore(document: Value, findings: Findings): Option<Value> {
    match Checks(document)
    case None => None
    case Some(checks) =>
      match RestoreChecks(checks, |checks|, findings)
      case Some(originals) => Some(WithChecks(document, originals))
      case None => None
  }

  /** The loops that copy the document and overwrite each inventory of references. */
  method Reconstruct(document: Value, findings: Findings) returns (restored: Option<Value>)
    ensures restored == Restore(document, findings)
  {
    if Checks(document).None? {
      return None;
    }
    var checks := Checks(document).value;
    var done: seq<Value> := [];
    for i := 0 to |checks|
      invariant RestoreChecks(checks, i, findings) == Some(done)
    {
      var check := checks[i];
      if Inventory(check).Some? {
        if !Inventory(check).value.Array? {
          PrefixNeeded(checks, i, findings);
          return None;
        }
        var references, originals: seq<Value> := Diagnostics(check), [];
        for j := 0 to |references|
          invariant FollowAll(references, i, j, findings) == Some(originals)
        {
          var original := Follow(references[j], i, j, findings);
          if original.None? {
            ListPrefixNeeded(references, i, j, findings);
            PrefixNeeded(checks, i, findings);
            return None;
          }
          originals := originals + [original.value];
        }
        check := Object(Insert(check.fields, "diagnostics", Array(originals)));
      }
      done := done + [check];
    }
    return Some(WithChecks(document, done));
  }

  lemma {:induction false} PrefixNeeded(checks: seq<Value>, i: nat, findings: Findings)
    requires i < |checks| && RestoreCheck(checks[i], i, findings).None?
    ensures RestoreChecks(checks, |checks|, findings).None?
  {
    PrefixFails(checks, i + 1, |checks|, findings);
  }

  lemma {:induction false} PrefixFails(checks: seq<Value>, i: nat, n: nat, findings: Findings)
    requires i <= n <= |checks| && RestoreChecks(checks, i, findings).None?
    ensures RestoreChecks(checks, n, findings).None?
    decreases n
  {
    if i < n { PrefixFails(checks, i, n - 1, findings); }
  }

  lemma {:induction false} ListPrefixNeeded(references: seq<Value>, check: nat, j: nat, findings: Findings)
    requires j < |references| && Follow(references[j], check, j, findings).None?
    ensures FollowAll(references, check, |references|, findings).None?
  {
    ListPrefixFails(references, check, j + 1, |references|, findings);
  }

  lemma {:induction false} ListPrefixFails(references: seq<Value>, check: nat, j: nat, n: nat, findings: Findings)
    requires j <= n <= |references| && FollowAll(references, check, j, findings).None?
    ensures FollowAll(references, check, n, findings).None?
    decreases n
  {
    if j < n { ListPrefixFails(references, check, j, n - 1, findings); }
  }

  // ----- Invariants of the groups -----

  /** A group is named by its key, holds only observations with that key and says what the first of them does. */
  ghost predicate GroupOk(key: string, g: Group, env: Env) {
    && g.id == FindingId(key, env) && g.observations != [] && g.payload == Strip(g.observations[0].diagnostic)
    && forall o :: o in g.observations ==> GroupKey(o.diagnostic, env) == key
  }

  ghost predicate WellGrouped(groups: Groups, env: Env) {
    forall k :: k in groups ==> GroupOk(k, groups[k], env)
  }

  /** Later groups keep every earlier observation in its place. */
  ghost predicate Extends(later: Groups, earlier: Groups) {
    forall k :: k in earlier ==>
      k in later && later[k].id == earlier[k].id && later[k].payload == earlier[k].payload
      && earlier[k].observations <= later[k].observations
  }

  lemma RecordGroups(groups: Groups, o: Observation, env: Env)
    requires WellGrouped(groups, env)
    ensures WellGrouped(Record(groups, o, env), env)
  {
  }

  lemma RecordExtends(groups: Groups, o: Observation, env: Env)
    ensures Extends(Record(groups, o, env), groups)
  {
  }

  lemma {:induction false} ListWellGrouped(ds: seq<Value>, check: nat, n: nat, groups: Groups, env: Env)
    requires n <= |ds| && WellGrouped(groups, env)
    ensures WellGrouped(CollectList(ds, check, n, groups, env).1, env)
  {
    if n > 0 {
      ListWellGrouped(ds, check, n - 1, groups, env);
      RecordGroups(CollectList(ds, check, n - 1, groups, env).1, Observation(check, n - 1, ds[n - 1]), env);
    }
  }

  lemma ExtendsTransitive(c: Groups, b: Groups, a: Groups)
    requires Extends(c, b) && Extends(b, a)
    ensures Extends(c, a)
  {
  }

  /** The last check, taken apart from those before it. */
  lemma {:induction false} GroupsAfter(checks: seq<Value>, n: nat, env: Env)
    requires 0 < n <= |checks|
    ensures var before, ds := CollectChecks(checks, n - 1, env), Diagnostics(checks[n - 1]);
            var last := CollectList(ds, n - 1, |ds|, before.1, env);
            CollectChecks(checks, n, env) == (before.0 + [Replace(checks[n - 1], last.0)], last.1)
  {
  }

  /** What every turn keeps holds at the end. */
  lemma {:induction false} TurnsKeep(turn: Turn, checks: seq<Value>, n: nat, holds: Groups -> bool)
    requires n <= |checks| && holds(map[])
    requires forall check, index: nat, groups :: holds(groups) ==> holds(turn(check, index, groups).1)
    ensures holds(TurnAll(turn, checks, n).1)
  {
    if n > 0 { TurnsKeep(turn, checks, n - 1, holds); }
  }

  lemma {:induction false} CheckGroups(checks: seq<Value>, n: nat, env: Env)
    requires n <= |checks|
    ensures WellGrouped(CollectChecks(checks, n, env).1, env)
  {
    forall check, index: nat, groups: Groups | WellGrouped(groups, env)
      ensures WellGrouped(Rewriting(env)(check, index, groups).1, env)
    {
      ListWellGrouped(Diagnostics(check), index, |Diagnostics(check)|, groups, env);
    }
    TurnsKeep(Rewriting(env), checks, n, groups => WellGrouped(groups, env));
  }

  // ----- The projected findings as the consumer indexes them -----

  ghost predicate HashSeparates(groups: Groups, env: Env) {
    forall k, l :: k in groups && l in groups && env.hash(k) == env.hash(l) ==> k == l
  }

  /** The dictionary `{row["id"]: row}` over the projected rows. */
  ghost predicate IsIndex(findings: Findings, groups: Groups) {
    && (forall k :: k in groups ==> groups[k].id in findings && findings[groups[k].id] == groups[k].observations)
    && (forall id :: id in findings ==> exists k :: k in groups && groups[k].id == id)
  }

  lemma IdsSeparate(a: string, b: string, env: Env)
    requires FindingId(a, env) == FindingId(b, env)
    ensures env.hash(a) == env.hash(b)
  {
    var x, y := FindingId(a, env), FindingId(b, env);
    assert x[18..] == env.hash(a) && y[18..] == env.hash(b);
  }

  lemma IndexExists(groups: Groups, env: Env) returns (findings: Findings)
    requires WellGrouped(groups, env) && HashSeparates(groups, env)
    ensures IsIndex(findings, groups)
  {
    forall k, l | k in groups && l in groups && groups[k].id == groups[l].id ensures k == l {
      IdsSeparate(k, l, env);
    }
    findings := map k | k in groups :: groups[k].id := groups[k].observations;
  }

  // ----- Round trip -----

  lemma FollowFound(groups: Groups, later: Groups, findings: Findings, o: Observation, env: Env)
    requires Extends(later, Record(groups, o, env)) && IsIndex(findings, later)
    ensures Follow(ReferenceTo(groups, o.diagnostic, env), o.checkIndex, o.diagnosticIndex, findings) == Some(o.diagnostic)
  {
    var key, g := GroupKey(o.diagnostic, env), GroupOf(groups, o.diagnostic, env);
    var reference := Reference(g.id, |g.observations|);
    assert "finding_id" != "observation_index" by { assert |"finding_id"| == 10; }
    assert reference.fields[1..] == [Field("observation_index", Number(|g.observations|))];
    assert Lookup(reference.fields[1..], "observation_index") == Some(Number(|g.observations|));
    var after := Record(groups, o, env)[key];
    assert after.observations[|g.observations|] == o;
    assert after.observations <= later[key].observations;
    assert later[key].observations[|g.observations|] == o;
  }

  /** The last diagnostic, taken apart from those before it. */
  lemma {:induction false} LastReference(ds: seq<Value>, check: nat, n: nat, groups: Groups, env: Env)
    requires 0 < n <= |ds|
    ensures var before, all := CollectList(ds, check, n - 1, groups, env), CollectList(ds, check, n, groups, env);
            && all.0 == before.0 + [ReferenceTo(before.1, ds[n - 1], env)]
            && all.1 == Record(before.1, Observation(check, n - 1, ds[n - 1]), env)
  {
  }

  lemma {:induction false} LastFollowed(ds: seq<Value>, check: nat, n: nat, groups: Groups, later: Groups,
                                        findings: Findings, env: Env)
    requires 0 < n <= |ds|
    requires Extends(later, CollectList(ds, check, n, groups, env).1) && IsIndex(findings, later)
    ensures |CollectList(ds, check, n, groups, env).0| == n
    ensures Follow(CollectList(ds, check, n, groups, env).0[n - 1], check, n - 1, findings) == Some(ds[n - 1])
  {
    EarlierReferences(ds, check, n - 1, n, groups, env);
    LastReference(ds, check, n, groups, env);
    FollowFound(CollectList(ds, check, n - 1, groups, env).1, later, findings, Observation(check, n - 1, ds[n - 1]), env);
  }

  /** Collecting more diagnostics only appends references. */
  lemma {:induction false} EarlierReferences(ds: seq<Value>, check: nat, m: nat, n: nat, groups: Groups, env: Env)
    requires m <= n <= |ds|
    ensures |CollectList(ds, check, n, groups, env).0| == n
    ensures |CollectList(ds, check, m, groups, env).0| == m
    ensures CollectList(ds, check, n, groups, env).0[..m] == CollectList(ds, check, m, groups, env).0
    decreases n
  {
    if m < n {
      EarlierReferences(ds, check, m, n - 1, groups, env);
    } else if n > 0 {
      EarlierReferences(ds, check, n - 1, n - 1, groups, env);
    }
  }

  lemma {:induction false} EarlierGroups(ds: seq<Value>, check: nat, m: nat, n: nat, groups: Groups, env: Env)
    requires m <= n <= |ds|
    ensures Extends(CollectList(ds, check, n, groups, env).1, CollectList(ds, check, m, groups, env).1)
    decreases n
  {
    if m < n {
      var before := CollectList(ds, check, n - 1, groups, env).1;
      EarlierGroups(ds, check, m, n - 1, groups, env);
      RecordExtends(before, Observation(check, n - 1, ds[n - 1]), env);
      LastReference(ds, check, n, groups, env);
      ExtendsTransitive(CollectList(ds, check, n, groups, env).1, before, CollectList(ds, check, m, groups, env).1);
    }
  }

  lemma {:induction false} LaterExtends(ds: seq<Value>, check: nat, m: nat, n: nat, groups: Groups,
                                        later: Groups, env: Env)
    requires m <= n <= |ds| && Extends(later, CollectList(ds, check, n, groups, env).1)
    ensures Extends(later, CollectList(ds, check, m, groups, env).1)
  {
    EarlierGroups(ds, check, m, n, groups, env);
    ExtendsTransitive(later, CollectList(ds, check, n, groups, env).1, CollectList(ds, check, m, groups, env).1);
  }

  lemma {:induction false} ReferenceFollowed(ds: seq<Value>, check: nat, n: nat, k: nat, groups: Groups, later: Groups,
                                             findings: Findings, env: Env)
    requires k < n <= |ds|
    requires Extends(later, CollectList(ds, check, n, groups, env).1) && IsIndex(findings, later)
    ensures |CollectList(ds, check, k + 1, groups, env).0| == k + 1
    ensures Follow(CollectList(ds, check, k + 1, groups, env).0[k], check, k, findings) == Some(ds[k])
  {
    LaterExtends(ds, check, k + 1, n, groups, later, env);
    LastFollowed(ds, check, k + 1, groups, later, findings, env);
  }

  lemma SamePlace(all: seq<Value>, part: seq<Value>, k: nat)
    requires k < |part| <= |all| && all[..|part|] == part
    ensures all[k] == part[k]
  {
  }

  lemma {:induction false} AllFollowed(references: seq<Value>, ds: seq<Value>, check: nat, n: nat, findings: Findings)
    requires n <= |references| == |ds|
    requires forall k :: 0 <= k < |ds| ==> Follow(references[k], check, k, findings) == Some(ds[k])
    ensures FollowAll(references, check, n, findings) == Some(ds[..n])
  {
    if n > 0 {
      AllFollowed(references, ds, check, n - 1, findings);
      assert ds[..n] == ds[..n - 1] + [ds[n - 1]];
    }
  }

  lemma {:induction false} ListRestored(ds: seq<Value>, check: nat, groups: Groups, later: Groups,
                                        findings: Findings, env: Env)
    requires Extends(later, CollectList(ds, check, |ds|, groups, env).1) && IsIndex(findings, later)
    ensures var references := CollectList(ds, check, |ds|, groups, env).0;
            |references| == |ds| && FollowAll(references, check, |ds|, findings) == Some(ds)
  {
    EarlierReferences(ds, check, |ds|, |ds|, groups, env);
    var references := CollectList(ds, check, |ds|, groups, env).0;
    forall k | 0 <= k < |ds| ensures Follow(references[k], check, k, findings) == Some(ds[k]) {
      ReferenceFollowed(ds, check, |ds|, k, groups, later, findings, env);
      EarlierReferences(ds, check, k + 1, |ds|, groups, env);
      SamePlace(references, CollectList(ds, check, k + 1, groups, env).0, k);
    }
    AllFollowed(references, ds, check, |ds|, findings);
    assert ds[..|ds|] == ds;
  }

  /** Sorted keys, as every parsed JSON object has. */
  ghost predicate CheckSorted(check: Value) {
    check.Object? ==> KeysSorted(check.fields)
  }

  /** The inventory, if there is one, is a list. */
  predicate InventoryIsList(check: Value) {
    Inventory(check).Some? ==> Inventory(check).value.Array?
  }

  lemma ReplacedInventory(check: Value, references: seq<Value>)
    requires CheckSorted(check) && Inventory(check).Some?
    ensures Inventory(Replace(check, references)) == Some(Array(references))
    ensures forall originals :: Insert(Replace(check, references).fields, "diagnostics", originals)
              == Insert(Remove(check.fields, "diagnostics"), "diagnostics", originals)
  {
    var rest := Remove(check.fields, "diagnostics");
    LookupInsert(rest, "diagnostics", Array(references), "diagnostics");
    forall originals
      ensures Insert(Insert(rest, "diagnostics", Array(references)), "diagnostics", originals)
           == Insert(rest, "diagnostics", originals)
    {
      InsertTwice(rest, "diagnostics", Array(references), originals);
    }
  }

  /** Restoring a projected check gives it back, with its inventory as a list. */
  lemma CheckRestored(check: Value, index: nat, references: seq<Value>, findings: Findings)
    requires CheckSorted(check)
    requires FollowAll(references, index, |references|, findings) == Some(Diagnostics(check))
    ensures RestoreCheck(Replace(check, references), index, findings)
         == Some(Replace(check, Diagnostics(check)))
    ensures Replace(check, Diagnostics(check)) == check <==> InventoryIsList(check)
  {
    if Inventory(check).Some? {
      ReplacedInventory(check, references);
      var back := Replace(check, Diagnostics(check));
      ReplacedInventory(check, Diagnostics(check));
      if InventoryIsList(check) {
        InsertRemoved(check.fields, "diagnostics", Array(Diagnostics(check)));
      } else {
        assert Inventory(back) != Inventory(check);
      }
    }
  }

  /** What reconstruction returns for a list of checks. */
  function Listed(checks: seq<Value>): seq<Value> {
    seq(|checks|, i requires 0 <= i < |checks| => Replace(checks[i], Diagnostics(checks[i])))
  }

  /** Every turn appends one check and leaves the earlier ones as they are. */
  lemma {:induction false} EarlierTurns(turn: Turn, checks: seq<Value>, i: nat, n: nat)
    requires i < n <= |checks|
    ensures |TurnAll(turn, checks, i + 1).0| == i + 1 && |TurnAll(turn, checks, n).0| == n
    ensures TurnAll(turn, checks, n).0[i] == TurnAll(turn, checks, i + 1).0[i]
    decreases n
  {
    if n > 1 { EarlierTurns(turn, checks, if i + 1 < n then i else 0, n - 1); }
  }

  lemma {:induction false} CollectLength(checks: seq<Value>, n: nat, env: Env)
    requires n <= |checks|
    ensures |CollectChecks(checks, n, env).0| == n
  {
    if n > 0 { EarlierTurns(Rewriting(env), checks, 0, n); }
  }

  lemma {:induction false} EarlierCheck(checks: seq<Value>, i: nat, n: nat, env: Env)
    requires i < n <= |checks|
    ensures |CollectChecks(checks, i + 1, env).0| == i + 1 && |CollectChecks(checks, n, env).0| == n
    ensures CollectChecks(checks, n, env).0[i] == CollectChecks(checks, i + 1, env).0[i]
  {
    EarlierTurns(Rewriting(env), checks, i, n);
  }

  lemma {:induction false} ChecksExtend(checks: seq<Value>, n: nat, env: Env)
    requires 0 < n <= |checks|
    ensures Extends(CollectChecks(checks, n, env).1, CollectChecks(checks, n - 1, env).1)
  {
    var ds := Diagnostics(checks[n - 1]);
    EarlierGroups(ds, n - 1, 0, |ds|, CollectChecks(checks, n - 1, env).1, env);
    GroupsAfter(checks, n, env);
  }

  lemma {:induction false} LastRewritten(checks: seq<Value>, n: nat, env: Env)
    requires 0 < n <= |checks|
    ensures var all, ds := CollectChecks(checks, n, env), Diagnostics(checks[n - 1]);
            var last := CollectList(ds, n - 1, |ds|, CollectChecks(checks, n - 1, env).1, env);
            |all.0| == n && all.0[n - 1] == Replace(checks[n - 1], last.0) && all.1 == last.1
  {
    CollectLength(checks, n - 1, env);
    GroupsAfter(checks, n, env);
  }

  /** A rewritten check is restored from any later findings. */
  lemma {:induction false} RewrittenRestored(check: Value, index: nat, groups: Groups, later: Groups,
                                             findings: Findings, env: Env)
    requires CheckSorted(check) && IsIndex(findings, later)
    requires Extends(later, CollectList(Diagnostics(check), index, |Diagnostics(check)|, groups, env).1)
    ensures var references := CollectList(Diagnostics(check), index, |Diagnostics(check)|, groups, env).0;
            RestoreCheck(Replace(check, references), index, findings) == Some(Replace(check, Diagnostics(check)))
  {
    var ds := Diagnostics(check);
    ListRestored(ds, index, groups, later, findings, env);
    CheckRestored(check, index, CollectList(ds, index, |ds|, groups, env).0, findings);
  }

  lemma {:induction false} LastCheckRestored(checks: seq<Value>, n: nat, later: Groups, findings: Findings, env: Env)
    requires 0 < n <= |checks| && CheckSorted(checks[n - 1])
    requires Extends(later, CollectChecks(checks, n, env).1) && IsIndex(findings, later)
    ensures |CollectChecks(checks, n, env).0| == n
    ensures RestoreCheck(CollectChecks(checks, n, env).0[n - 1], n - 1, findings) == Some(Listed(checks)[n - 1])
  {
    LastRewritten(checks, n, env);
    RewrittenRestored(checks[n - 1], n - 1, CollectChecks(checks, n - 1, env).1, later, findings, env);
  }

  lemma {:induction false} LaterThanChecks(checks: seq<Value>, m: nat, n: nat, later: Groups, env: Env)
    requires m <= n <= |checks| && Extends(later, CollectChecks(checks, n, env).1)
    ensures Extends(later, CollectChecks(checks, m, env).1)
    decreases n
  {
    if m < n {
      ChecksExtend(checks, n, env);
      ExtendsTransitive(later, CollectChecks(checks, n, env).1, CollectChecks(checks, n - 1, env).1);
      LaterThanChecks(checks, m, n - 1, later, env);
    }
  }

  lemma {:induction false} CheckRestoredAt(checks: seq<Value>, n: nat, i: nat, later: Groups,
                                           findings: Findings, env: Env)
    requires i < n <= |checks| && CheckSorted(checks[i])
    requires Extends(later, CollectChecks(checks, n, env).1) && IsIndex(findings, later)
    ensures |CollectChecks(checks, n, env).0| == n
    ensures RestoreCheck(CollectChecks(checks, n, env).0[i], i, findings) == Some(Listed(checks)[i])
  {
    var m := i + 1;
    LaterThanChecks(checks, m, n, later, env);
    LastCheckRestored(checks, m, later, findings, env);
    EarlierCheck(checks, i, n, env);
  }

  lemma {:induction false} AllRestored(projected: seq<Value>, originals: seq<Value>, n: nat, findings: Findings)
    requires n <= |projected| == |originals|
    requires forall i :: 0 <= i < |projected| ==> RestoreCheck(projected[i], i, findings) == Some(originals[i])
    ensures RestoreChecks(projected, n, findings) == Some(originals[..n])
  {
    if n > 0 {
      AllRestored(projected, originals, n - 1, findings);
      assert originals[..n] == originals[..n - 1] + [originals[n - 1]];
    }
  }

  lemma ChecksRestored(checks: seq<Value>, findings: Findings, env: Env)
    requires forall c :: c in checks ==> CheckSorted(c)
    requires IsIndex(findings, CollectChecks(checks, |checks|, env).1)
    ensures var r := CollectChecks(checks, |checks|, env);
            |r.0| == |checks| && RestoreChecks(r.0, |checks|, findings) == Some(Listed(checks))
  {
    var r := CollectChecks(checks, |checks|, env);
    CollectLength(checks, |checks|, env);
    forall i | 0 <= i < |checks| ensures RestoreCheck(r.0[i], i, findings) == Some(Listed(checks)[i]) {
      assert checks[i] in checks;
      CheckRestoredAt(checks, |checks|, i, r.1, findings, env);
    }
    AllRestored(r.0, Listed(checks), |checks|, findings);
    assert Listed(checks)[..|checks|] == Listed(checks);
  }

  ghost predicate DocumentSorted(document: Value)
    requires Checks(document).Some?
  {
    && KeysSorted(document.fields) && KeysSorted(Lookup(document.fields, "data").value.fields)
    && forall c :: c in Checks(document).value ==> CheckSorted(c)
  }

  lemma RewrittenDocument(document: Value, a: seq<Value>, b: seq<Value>)
    requires Checks(document).Some?
    ensures Checks(WithChecks(document, a)) == Some(a)
    ensures WithChecks(WithChecks(document, a), b) == WithChecks(document, b)
  {
    var data := Lookup(document.fields, "data").value.fields;
    var inner := Insert(data, "checks", Array(a));
    LookupInsert(data, "checks", Array(a), "checks");
    LookupInsert(document.fields, "data", Object(inner), "data");
    InsertTwice(data, "checks", Array(a), Array(b));
    InsertTwice(document.fields, "data", Object(inner), Object(Insert(data, "checks", Array(b))));
  }

  lemma SameChecks(document: Value, checks: seq<Value>)
    requires Checks(document).Some? && DocumentSorted(document)
    ensures WithChecks(document, checks) == document <==> checks == Checks(document).value
  {
    var data := Lookup(document.fields, "data").value.fields;
    if checks == Checks(document).value {
      InsertSame(data, "checks", Array(checks));
      InsertSame(document.fields, "data", Object(data));
    } else {
      RewrittenDocument(document, checks, checks);
    }
  }

  /** The projection loses nothing exactly when every inventory is a list, which is what validation
      demands of a practice check; otherwise the inventory comes back as an empty list. */
  lemma ProjectionLossless(document: Value, findings: Findings, env: Env)
    requires Checks(document).Some? && DocumentSorted(document)
    requires IsIndex(findings, Collect(document, env).1)
    ensures Restore(Collect(document, env).0, findings).Some?
    ensures Restore(Collect(document, env).0, findings) == Some(document) <==>
            forall c :: c in Checks(document).value ==> InventoryIsList(c)
  {
    var checks := Checks(document).value;
    var r := CollectChecks(checks, |checks|, env);
    RewrittenDocument(document, r.0, Listed(checks));
    ChecksRestored(checks, findings, env);
    SameChecks(document, Listed(checks));
    ListedSame(checks);
  }

  lemma ListedSame(checks: seq<Value>)
    requires forall c :: c in checks ==> CheckSorted(c)
    ensures Listed(checks) == checks <==> forall c :: c in checks ==> InventoryIsList(c)
  {
    forall i | 0 <= i < |checks| ensures Listed(checks)[i] == checks[i] <==> InventoryIsList(checks[i]) {
      assert checks[i] in checks;
      var c := checks[i];
      if Inventory(c).Some? {
        ReplacedInventory(c, Diagnostics(c));
        if InventoryIsList(c) {
          InsertRemoved(c.fields, "diagnostics", Array(Diagnostics(c)));
        }
      }
    }
    if Listed(checks) == checks {
      forall c | c in checks ensures InventoryIsList(c) {
        var i :| 0 <= i < |checks| && checks[i] == c;
        assert Listed(checks)[i] == checks[i];
      }
    }
  }

  // ----- Nothing is duplicated or dropped -----

  ghost function Total(groups: Groups): nat {
    if groups == map[] then 0
    else
      var k :| k in groups;
      |groups[k].observations| + Total(groups - {k})
  }

  lemma {:induction false} TotalWithout(groups: Groups, k: string)
    requires k in groups
    ensures Total(groups) == |groups[k].observations| + Total(groups - {k})
    decreases |groups|
  {
    var l :| l in groups && Total(groups) == |groups[l].observations| + Total(groups - {l});
    if l != k {
      TotalWithout(groups - {l}, k);
      TotalWithout(groups - {k}, l);
      assert groups - {l} - {k} == groups - {k} - {l};
    }
  }

  lemma TotalRecord(groups: Groups, o: Observation, env: Env)
    ensures Total(Record(groups, o, env)) == Total(groups) + 1
  {
    var key := GroupKey(o.diagnostic, env);
    var after := Record(groups, o, env);
    TotalWithout(after, key);
    assert after - {key} == groups - {key};
    if key in groups {
      TotalWithout(groups, key);
    } else {
      assert groups - {key} == groups;
    }
  }

  function DiagnosticCount(checks: seq<Value>, n: nat): nat
    requires n <= |checks|
  {
    if n == 0 then 0 else DiagnosticCount(checks, n - 1) + |Diagnostics(checks[n - 1])|
  }

  lemma {:induction false} TotalList(ds: seq<Value>, check: nat, n: nat, groups: Groups, env: Env)
    requires n <= |ds|
    ensures Total(CollectList(ds, check, n, groups, env).1) == Total(groups) + n
  {
    if n > 0 {
      TotalList(ds, check, n - 1, groups, env);
      TotalRecord(CollectList(ds, check, n - 1, groups, env).1, Observation(check, n - 1, ds[n - 1]), env);
    }
  }

  /** The observations of all findings together are as many as the diagnostics of the input. */
  lemma {:induction false} ObservationsTotal(checks: seq<Value>, n: nat, env: Env)
    requires n <= |checks|
    ensures Total(CollectChecks(checks, n, env).1) == DiagnosticCount(checks, n)
  {
    if n > 0 {
      ObservationsTotal(checks, n - 1, env);
      LastTotal(checks, n, env);
    }
  }

  lemma {:induction false} LastTotal(checks: seq<Value>, n: nat, env: Env)
    requires 0 < n <= |checks|
    ensures Total(CollectChecks(checks, n, env).1)
         == Total(CollectChecks(checks, n - 1, env).1) + |Diagnostics(checks[n - 1])|
  {
    var ds := Diagnostics(checks[n - 1]);
    GroupsAfter(checks, n, env);
    TotalList(ds, n - 1, |ds|, CollectChecks(checks, n - 1, env).1, env);
  }

  ghost function ListKeys(ds: seq<Value>, n: nat, env: Env): set<string>
    requires n <= |ds|
  {
    if n == 0 then {} else ListKeys(ds, n - 1, env) + {GroupKey(ds[n - 1], env)}
  }

  ghost function CheckKeys(checks: seq<Value>, n: nat, env: Env): set<string>
    requires n <= |checks|
  {
    if n == 0 then {}
    else CheckKeys(checks, n - 1, env) + KeysOf(checks[n - 1], env)
  }

  ghost function KeysOf(check: Value, env: Env): set<string> {
    ListKeys(Diagnostics(check), |Diagnostics(check)|, env)
  }

  lemma {:induction false} ListKeysCollected(ds: seq<Value>, check: nat, n: nat, groups: Groups, env: Env)
    requires n <= |ds|
    ensures CollectList(ds, check, n, groups, env).1.Keys == groups.Keys + ListKeys(ds, n, env)
  {
    if n > 0 { ListKeysCollected(ds, check, n - 1, groups, env); }
  }

  lemma {:induction false} CheckKeysCollected(checks: seq<Value>, n: nat, env: Env)
    requires n <= |checks|
    ensures CollectChecks(checks, n, env).1.Keys == CheckKeys(checks, n, env)
  {
    if n > 0 {
      CheckKeysCollected(checks, n - 1, env);
      LastKeysCollected(checks, n, env);
      LastCheckKeys(checks, n, env);
    } else {
      assert CollectChecks(checks, n, env).1 == map[];
    }
  }

  lemma {:induction false} LastCheckKeys(checks: seq<Value>, n: nat, env: Env)
    requires 0 < n <= |checks|
    ensures CheckKeys(checks, n, env) == CheckKeys(checks, n - 1, env) + KeysOf(checks[n - 1], env)
  {
  }

  lemma {:induction false} LastKeysCollected(checks: seq<Value>, n: nat, env: Env)
    requires 0 < n <= |checks|
    ensures CollectChecks(checks, n, env).1.Keys == CollectChecks(checks, n - 1, env).1.Keys + KeysOf(checks[n - 1], env)
  {
    GroupsAfter(checks, n, env);
    var ds := Diagnostics(checks[n - 1]);
    ListKeysCollected(ds, n - 1, |ds|, CollectChecks(checks, n - 1, env).1, env);
  }

  lemma {:induction false} KeyFromCheck(checks: seq<Value>, n: nat, env: Env, key: string)
    requires n <= |checks|
    ensures key in CheckKeys(checks, n, env) <==> exists i :: 0 <= i < n && key in KeysOf(checks[i], env)
  {
    if n > 0 { KeyFromCheck(checks, n - 1, env, key); }
  }

  ghost function FindingIds(groups: Groups): set<string> {
    set k | k in groups :: groups[k].id
  }

  lemma IdsFromKeys(groups: Groups, env: Env)
    requires WellGrouped(groups, env)
    ensures FindingIds(groups) == set k | k in groups.Keys :: FindingId(k, env)
  {
    forall k | k in groups ensures groups[k].id == FindingId(k, env) {
      assert GroupOk(k, groups[k], env);
    }
  }

  lemma SameKeys(a: seq<Value>, b: seq<Value>, env: Env)
    requires multiset(a) == multiset(b)
    ensures CheckKeys(a, |a|, env) == CheckKeys(b, |b|, env)
  {
    Permutations.SameMembers(a, b);
    forall key ensures key in CheckKeys(a, |a|, env) <==> key in CheckKeys(b, |b|, env) {
      KeyFromCheck(a, |a|, env, key);
      KeyFromCheck(b, |b|, env, key);
      if i :| 0 <= i < |a| && key in KeysOf(a[i], env) {
        assert a[i] in b;
      }
      if i :| 0 <= i < |b| && key in KeysOf(b[i], env) {
        assert b[i] in a;
      }
    }
  }

  /** Reordering the checks leaves the finding identities unchanged. */
  lemma ReorderingKeepsIds(a: seq<Value>, b: seq<Value>, env: Env)
    requires multiset(a) == multiset(b)
    ensures FindingIds(CollectChecks(a, |a|, env).1) == FindingIds(CollectChecks(b, |b|, env).1)
  {
    var x, y := CollectChecks(a, |a|, env).1, CollectChecks(b, |b|, env).1;
    CheckKeysCollected(a, |a|, env);
    CheckKeysCollected(b, |b|, env);
    SameKeys(a, b, env);
    CheckGroups(a, |a|, env);
    CheckGroups(b, |b|, env);
    IdsFromKeys(x, env);
    IdsFromKeys(y, env);
  }
}
