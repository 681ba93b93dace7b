/** Which diagnostics make one finding, and what the finding says, in terms of the document alone
    (src/findings/practices.rs). */
module PracticeGroups {
  import opened Order
  import opened Json
  import opened Practices

  predicate IsMark(key: string) {
    key == "id" || key == "identity_version"
  }

  /** Two diagnostics that say the same, whatever identities they carry. */
  ghost predicate Agree(a: Value, b: Value) {
    if a.Object? && b.Object?
    then forall key :: !IsMark(key) ==> Lookup(a.fields, key) == Lookup(b.fields, key)
    else a == b
  }

  /** What a diagnostic says without its identity. */
  ghost predicate Says(payload: Value, diagnostic: Value) {
    && Agree(payload, diagnostic)
    && (payload.Object? ==> KeysSorted(payload.fields) && forall key :: IsMark(key) ==> Lookup(payload.fields, key) == None)
  }

  ghost predicate DiagnosticSorted(d: Value) {
    d.Object? ==> KeysSorted(d.fields)
  }

  /** The document lists the diagnostic at that place. */
  ghost predicate Lists(document: Value, o: Observation) {
    exists data, checks ::
      && document.Object? && Lookup(document.fields, "data") == Some(Object(data))
      && Lookup(data, "checks") == Some(Array(checks)) && o.checkIndex < |checks|
      && ListsIn(checks[o.checkIndex], o)
  }

  ghost predicate ListsIn(check: Value, o: Observation) {
    exists items :: check.Object? && Lookup(check.fields, "diagnostics") == Some(Array(items))
                    && o.diagnosticIndex < |items| && items[o.diagnosticIndex] == o.diagnostic
  }

  /** JSON renders what two listed diagnostics say differently unless it is the same. */
  ghost predicate TextSeparates(document: Value, env: Env) {
    forall o, q, v, w ::
      Lists(document, o) && Lists(document, q) && Says(v, o.diagnostic) && Says(w, q.diagnostic) ==>
        (env.text(v) == env.text(w) ==> v == w)
  }

  ghost predicate AllSorted(document: Value) {
    forall o :: Lists(document, o) ==> DiagnosticSorted(o.diagnostic)
  }

  // ----- Stripping -----

  lemma {:induction false} SameLookups(a: seq<Field>, b: seq<Field>)
    requires KeysSorted(a) && KeysSorted(b) && forall key :: Lookup(a, key) == Lookup(b, key)
    ensures a == b
  {
    if a == [] {
      assert b != [] ==> Lookup(b, b[0].key).Some?;
    } else {
      assert Lookup(a, a[0].key).Some?;
      FirstNotBelow(a, b);
      FirstNotBelow(b, a);
      Trichotomy(a[0].key, b[0].key);
      forall key ensures Lookup(a[1..], key) == Lookup(b[1..], key) {
        assert Lookup(a, key) == Lookup(b, key);
        if key == a[0].key {
          AbsentAbove(a[1..], key);
          AbsentAbove(b[1..], key);
        }
      }
      SameLookups(a[1..], b[1..]);
      assert a == [a[0]] + a[1..] && b == [b[0]] + b[1..];
    }
  }

  lemma FirstNotBelow(a: seq<Field>, b: seq<Field>)
    requires a != [] && b != [] && KeysSorted(b) && Lookup(b, a[0].key).Some?
    ensures !Less(a[0].key, b[0].key)
  {
    PresentAbove(b, a[0].key);
    Trichotomy(a[0].key, b[0].key);
  }

  lemma StripSays(d: Value)
    requires DiagnosticSorted(d)
    ensures Says(Strip(d), d)
  {
    if d.Object? {
      var once := Remove(d.fields, "id");
      var twice := Remove(once, "identity_version");
      LookupRemove(d.fields, "id", "id");
      LookupRemove(once, "identity_version", "identity_version");
      forall key ensures Lookup(twice, key) == if IsMark(key) then None else Lookup(d.fields, key) {
        LookupRemove(d.fields, "id", key);
        LookupRemove(once, "identity_version", key);
      }
    }
  }

  lemma StripAgree(d: Value, e: Value)
    requires DiagnosticSorted(d) && DiagnosticSorted(e)
    ensures Strip(d) == Strip(e) <==> Agree(d, e)
  {
    StripSays(d);
    StripSays(e);
    if d.Object? && e.Object? && Agree(d, e) {
      SameLookups(Strip(d).fields, Strip(e).fields);
    }
  }

  // ----- What is in the groups -----

  ghost predicate Holds(groups: Groups, o: Observation) {
    exists k :: k in groups && o in groups[k].observations
  }

  lemma RecordHolds(groups: Groups, o: Observation, env: Env, q: Observation)
    ensures Holds(Record(groups, o, env), q) <==> Holds(groups, q) || q == o
  {
    var key, after := GroupKey(o.diagnostic, env), Record(groups, o, env);
    assert after[key].observations == GroupOf(groups, o.diagnostic, env).observations + [o];
    if k :| k in groups && q in groups[k].observations {
      assert q in after[k].observations;
    }
  }

  lemma {:induction false} ListHolds(ds: seq<Value>, check: nat, n: nat, groups: Groups, env: Env, q: Observation)
    requires n <= |ds|
    ensures Holds(CollectList(ds, check, n, groups, env).1, q) <==>
            || Holds(groups, q)
            || (q.checkIndex == check && q.diagnosticIndex < n && q.diagnostic == ds[q.diagnosticIndex])
  {
    if n > 0 {
      ListHolds(ds, check, n - 1, groups, env, q);
      LastReference(ds, check, n, groups, env);
      RecordHolds(CollectList(ds, check, n - 1, groups, env).1, Observation(check, n - 1, ds[n - 1]), env, q);
    }
  }

  lemma DiagnosticsListed(check: Value, o: Observation)
    ensures ListsIn(check, o) <==>
            o.diagnosticIndex < |Diagnostics(check)| && Diagnostics(check)[o.diagnosticIndex] == o.diagnostic
  {
  }

  ghost predicate TurnAdds(turn: Turn, at: (Value, nat) -> bool, q: Observation) {
    forall check, index: nat, groups :: Holds(turn(check, index, groups).1, q) <==> Holds(groups, q) || at(check, index)
  }

  lemma {:induction false} TurnsHold(turn: Turn, checks: seq<Value>, n: nat, at: (Value, nat) -> bool, q: Observation)
    requires n <= |checks| && TurnAdds(turn, at, q)
    ensures Holds(TurnAll(turn, checks, n).1, q) <==> exists i: nat :: i < n && at(checks[i], i)
  {
    if n > 0 {
      TurnsHold(turn, checks, n - 1, at, q);
    }
  }

  lemma RewritingHolds(check: Value, index: nat, groups: Groups, env: Env, q: Observation)
    ensures Holds(Rewriting(env)(check, index, groups).1, q) <==>
            Holds(groups, q) || (q.checkIndex == index && ListsIn(check, q))
  {
    var ds := Diagnostics(check);
    ListHolds(ds, index, |ds|, groups, env, q);
    DiagnosticsListed(check, q);
  }

  ghost function ListedAt(q: Observation): (Value, nat) -> bool {
    (check, index) => q.checkIndex == index && ListsIn(check, q)
  }

  lemma {:induction false} ChecksHold(checks: seq<Value>, env: Env, q: Observation)
    ensures Holds(CollectChecks(checks, |checks|, env).1, q) <==> q.checkIndex < |checks| && ListsIn(checks[q.checkIndex], q)
  {
    forall check, index: nat, groups
      ensures Holds(Rewriting(env)(check, index, groups).1, q) <==> Holds(groups, q) || ListedAt(q)(check, index)
    {
      RewritingHolds(check, index, groups, env, q);
    }
    TurnsHold(Rewriting(env), checks, |checks|, ListedAt(q), q);
  }

  /** The findings observe exactly what the document lists, each diagnostic at its place. */
  lemma ObservedIffListed(document: Value, env: Env, o: Observation)
    ensures Holds(Collect(document, env).1, o) <==> Lists(document, o)
  {
    if Checks(document).Some? {
      var checks := Checks(document).value;
      ChecksHold(checks, env, o);
      var data := Lookup(document.fields, "data").value.fields;
      assert Lookup(data, "checks") == Some(Array(checks));
    }
  }

  lemma GroupsOk(document: Value, env: Env)
    ensures WellGrouped(Collect(document, env).1, env)
  {
    if Checks(document).Some? {
      CheckGroups(Checks(document).value, |Checks(document).value|, env);
    }
  }

  lemma SameKeyIff(document: Value, env: Env, o: Observation, q: Observation)
    requires AllSorted(document) && TextSeparates(document, env) && Lists(document, o) && Lists(document, q)
    ensures GroupKey(o.diagnostic, env) == GroupKey(q.diagnostic, env) <==> Agree(o.diagnostic, q.diagnostic)
  {
    StripSays(o.diagnostic);
    StripSays(q.diagnostic);
    StripAgree(o.diagnostic, q.diagnostic);
  }

  /** Two listed diagnostics are observations of one finding exactly when they agree on every field but their
      identities. */
  lemma OneFindingIff(document: Value, env: Env, o: Observation, q: Observation)
    requires AllSorted(document) && TextSeparates(document, env) && Lists(document, o) && Lists(document, q)
    ensures var groups := Collect(document, env).1;
            (exists k :: k in groups && o in groups[k].observations && q in groups[k].observations) <==>
            Agree(o.diagnostic, q.diagnostic)
  {
    var groups := Collect(document, env).1;
    GroupsOk(document, env);
    SameKeyIff(document, env, o, q);
    ObservedIffListed(document, env, o);
    ObservedIffListed(document, env, q);
    var k :| k in groups && o in groups[k].observations;
    var l :| l in groups && q in groups[l].observations;
    assert GroupOk(k, groups[k], env) && GroupOk(l, groups[l], env);
  }

  /** A finding says what each of its observations says, and carries no identity of theirs. */
  lemma FindingSays(document: Value, env: Env, k: string, o: Observation)
    requires AllSorted(document) && TextSeparates(document, env)
    requires k in Collect(document, env).1 && o in Collect(document, env).1[k].observations
    ensures Says(Collect(document, env).1[k].payload, o.diagnostic)
  {
    var groups := Collect(document, env).1;
    GroupsOk(document, env);
    assert GroupOk(k, groups[k], env);
    var first := groups[k].observations[0];
    assert first in groups[k].observations;
    ObservedIffListed(document, env, o);
    ObservedIffListed(document, env, first);
    SameKeyIff(document, env, first, o);
    StripAgree(first.diagnostic, o.diagnostic);
    StripSays(o.diagnostic);
  }
}
