/** Finding normalization of the violations of an architecture policy: their JSON form, and what the identity walk
    does to it (src/compiler_inventory/architecture_policy.rs, src/findings.rs). */
module ArchIdentities {
  import opened Order
  import opened Origins
  import opened Profiles
  import opened Inventories
  import opened ArchPolicy
  import opened Json
  import Identity
  import Patterns

  function OptText(text: Option<string>): Value {
    if text.Some? then Text(text.value) else Null
  }

  function OptNumber(n: Option<nat>): Value {
    if n.Some? then Number(n.value) else Null
  }

  function LevelText(level: Patterns.Level): Value {
    match level
    case Off => Text("off")
    case Advisory => Text("advisory")
    case Warning => Text("warning")
    case Error => Text("error")
  }

  /** The object with these entries. */
  function Entries(entries: seq<(string, Value)>): seq<Field> {
    if entries == [] then []
    else Insert(Entries(entries[..|entries| - 1]), entries[|entries| - 1].0, entries[|entries| - 1].1)
  }

  function LocationValue(at: Location): Value {
    Object(Entries([("path", Text(at.path)), ("line", Number(at.line)), ("column", Number(at.column)),
                    ("end_line", Number(at.endLine)), ("end_column", Number(at.endColumn))]))
  }

  function OriginValue(o: Origin): Value {
    Object(Entries([("generated", Bool(o.generated)), ("location_kind", Text(o.locationKind)),
                    ("location", if o.location.Some? then LocationValue(o.location.value) else Null)]))
  }

  function OriginValues(origins: seq<Origin>): seq<Value> {
    seq(|origins|, i requires 0 <= i < |origins| => OriginValue(origins[i]))
  }

  function RowEntries(row: Row): seq<(string, Value)> {
    [("category", Text("static-finding")), ("kind", Text("architecture-boundary")),
     ("severity", LevelText(row.severity)), ("compiler_context_id", Text(row.contextId)),
     ("source_module_id", Text(row.source)), ("target_module_id", Text(row.target)),
     ("source_selector", Text(row.sourceSelector)), ("target_selector", Text(row.targetSelector)),
     ("module_key", Text(row.moduleKey)), ("package_name", OptText(row.packageName)),
     ("path", OptText(row.path)), ("line", OptNumber(row.line)),
     ("reference_count", Number(row.referenceCount)), ("reference_origins", Array(OriginValues(row.origins))),
     ("message", Text(row.message)), ("source", Text("configured_architecture_rule"))]
  }

  /** A violation as the producer writes it. */
  function Evaluated(row: Row): seq<Field> {
    Insert(Entries(RowEntries(row)), "rule_id", Text(row.ruleId))
  }

  /** A violation with the marks it has. */
  function RowFields(row: Row): seq<Field> {
    var named := if row.id.Some? then Insert(Evaluated(row), "id", Text(row.id.value)) else Evaluated(row);
    if row.identityVersion.Some? then Insert(named, "identity_version", Text(row.identityVersion.value)) else named
  }

  function RowValues(rows: seq<Row>): seq<Value> {
    seq(|rows|, i requires 0 <= i < |rows| => Object(RowFields(rows[i])))
  }

  lemma {:induction false} EntryFound(entries: seq<(string, Value)>, i: nat)
    requires i < |entries| && forall j :: i < j < |entries| ==> entries[j].0 != entries[i].0
    ensures Lookup(Entries(entries), entries[i].0) == Some(entries[i].1)
  {
    var front, last := entries[..|entries| - 1], entries[|entries| - 1];
    LookupInsert(Entries(front), last.0, last.1, entries[i].0);
    if i < |entries| - 1 {
      EntryFound(front, i);
    }
  }

  /** The severity of a violation is that of its rule, in the words the policy gate reads. */
  lemma SeverityWritten(row: Row)
    ensures var severity := Lookup(RowFields(row.(id := None, identityVersion := None)), "severity");
            && severity.Some?
            && (severity.value == Text("error") <==> row.severity.Error?)
            && (severity.value == Text("warning") <==> row.severity.Warning?)
            && (severity.value == Text("advisory") <==> row.severity.Advisory?)
  {
    var entries := RowEntries(row);
    assert entries[2].0 == "severity";
    forall j | 2 < j < |entries| ensures entries[j].0 != "severity" {
      assert entries[j].0[1] != 'e' || |entries[j].0| != 8;
    }
    EntryFound(entries, 2);
    LookupInsert(Entries(entries), "rule_id", Text(row.ruleId), "severity");
    assert "rule_id"[0] != "severity"[0];
    assert "error"[0] == 'e' && "warning"[0] == 'w' && "advisory"[0] == 'a' && "off"[0] == 'o';
  }

  /** What the identity walk and the policy gate read of a violation is where they look for it. */
  lemma FieldsWritten(row: Row)
    ensures var fields := Evaluated(row);
            && Lookup(fields, "rule_id") == Some(Text(row.ruleId)) && Lookup(fields, "message") == Some(Text(row.message))
            && Lookup(fields, "path") == Some(OptText(row.path)) && Lookup(fields, "line") == Some(OptNumber(row.line))
            && Lookup(fields, "package_name") == Some(OptText(row.packageName))
  {
    var entries := RowEntries(row);
    var keys := ["package_name", "path", "line", "reference_count", "reference_origins", "message", "source"];
    assert forall k :: 0 <= k < 7 ==> entries[k + 9].0 == keys[k];
    assert keys[0][1] == 'a' && keys[1][1] == 'a' && |keys[0]| != |keys[1]| && keys[2][0] == 'l';
    assert keys[3][0] == 'r' && keys[4][0] == 'r' && keys[5][0] == 'm' && keys[6][0] == 's';
    EntryFound(entries, 9);
    EntryFound(entries, 10);
    EntryFound(entries, 11);
    EntryFound(entries, 14);
    LookupInsert(Entries(entries), "rule_id", Text(row.ruleId), "rule_id");
    forall k | k in {0, 1, 2, 5} ensures keys[k] != "rule_id" {
      assert "rule_id"[0] == 'r';
    }
    LookupInsert(Entries(entries), "rule_id", Text(row.ruleId), "package_name");
    LookupInsert(Entries(entries), "rule_id", Text(row.ruleId), "path");
    LookupInsert(Entries(entries), "rule_id", Text(row.ruleId), "line");
    LookupInsert(Entries(entries), "rule_id", Text(row.ruleId), "message");
  }

  // ----- Nothing below a violation has a rule -----

  ghost predicate Plain(entries: seq<(string, Value)>, env: Identity.Env) {
    forall e :: e in entries ==> Identity.Subjects(e.1, env) == []
  }

  lemma {:induction false} PlainEntries(entries: seq<(string, Value)>, env: Identity.Env)
    requires Plain(entries, env)
    ensures Identity.FieldsSubjects(Entries(entries), env) == []
  {
    if entries != [] {
      var front, last := entries[..|entries| - 1], entries[|entries| - 1];
      assert forall e :: e in front ==> e in entries;
      assert last in entries;
      PlainEntries(front, env);
      Identity.InsertSubjects(Entries(front), last.0, last.1, env);
    }
  }

  lemma {:induction false} EntryAbsent(entries: seq<(string, Value)>, key: string)
    requires forall e :: e in entries ==> e.0 != key
    ensures Lookup(Entries(entries), key) == None
  {
    if entries != [] {
      var front, last := entries[..|entries| - 1], entries[|entries| - 1];
      assert forall e :: e in front ==> e in entries;
      assert last in entries;
      EntryAbsent(front, key);
      LookupInsert(Entries(front), last.0, last.1, key);
    }
  }

  /** An object without a rule whose entries are plain is plain. */
  lemma PlainObject(entries: seq<(string, Value)>, env: Identity.Env)
    requires Plain(entries, env) && forall e :: e in entries ==> e.0 != "rule_id"
    ensures Identity.Subjects(Object(Entries(entries)), env) == []
  {
    PlainEntries(entries, env);
    EntryAbsent(entries, "rule_id");
  }

  lemma OriginPlain(o: Origin, env: Identity.Env)
    ensures Identity.Subjects(OriginValue(o), env) == []
  {
    if o.location.Some? {
      var at := o.location.value;
      PlainObject([("path", Text(at.path)), ("line", Number(at.line)), ("column", Number(at.column)),
                   ("end_line", Number(at.endLine)), ("end_column", Number(at.endColumn))], env);
    }
    PlainObject([("generated", Bool(o.generated)), ("location_kind", Text(o.locationKind)),
                 ("location", if o.location.Some? then LocationValue(o.location.value) else Null)], env);
  }

  lemma {:induction false} OriginsPlain(origins: seq<Origin>, env: Identity.Env)
    ensures Identity.ItemsSubjects(OriginValues(origins), env) == []
    decreases |origins|
  {
    var values := OriginValues(origins);
    if origins != [] {
      OriginPlain(origins[0], env);
      OriginsPlain(origins[1..], env);
      assert values[1..] == OriginValues(origins[1..]);
    }
  }

  predicate IsLeaf(v: Value) {
    v.Text? || v.Number? || v.Null?
  }

  lemma RowEntriesPlain(row: Row, env: Identity.Env)
    ensures Plain(RowEntries(row), env)
  {
    var entries := RowEntries(row);
    forall i | 0 <= i < |entries| ensures Identity.Subjects(entries[i].1, env) == [] {
      if i == 13 {
        OriginsPlain(row.origins, env);
      } else {
        EntryLeaf(row, i);
      }
    }
  }

  lemma EntryLeaf(row: Row, i: nat)
    requires i < |RowEntries(row)| && i != 13
    ensures IsLeaf(RowEntries(row)[i].1)
  {
  }

  lemma RowPlain(row: Row, env: Identity.Env)
    ensures Identity.FieldsSubjects(Evaluated(row), env) == []
    ensures Identity.SubjectOf(Evaluated(row), env).Some?
  {
    var entries := RowEntries(row);
    RowEntriesPlain(row, env);
    PlainEntries(entries, env);
    Identity.InsertSubjects(Entries(entries), "rule_id", Text(row.ruleId), env);
    LookupInsert(Entries(entries), "rule_id", Text(row.ruleId), "rule_id");
  }

  // ----- The walk over the violations -----

  /** The walk gives a violation an identity and changes nothing else. */
  lemma RowMarked(row: Row, occ: Identity.Occurrences, env: Identity.Env)
    returns (row': Row, occ': Identity.Occurrences)
    requires row.id == None && row.identityVersion == None
    ensures Identity.Visit(Object(RowFields(row)), occ, env) == (Object(RowFields(row')), occ')
    ensures row'.id.Some? && row'.(id := None, identityVersion := None) == row
  {
    RowPlain(row, env);
    var id;
    id, occ' := Identity.OnlyMarked(RowFields(row), occ, env);
    row' := row.(id := Some(id), identityVersion := Some("source-anchor-v1"));
    assert Evaluated(row') == Evaluated(row);
  }

  lemma {:induction false} RowsMarked(rows: seq<Row>, occ: Identity.Occurrences,
                                      env: Identity.Env) returns (rows': seq<Row>)
    requires forall row :: row in rows ==> row.id == None && row.identityVersion == None
    ensures Identity.VisitItems(RowValues(rows), occ, env).0 == RowValues(rows')
    ensures Stripped(rows') == rows
    decreases |rows|
  {
    if rows == [] {
      rows' := [];
    } else {
      assert rows[0] in rows && forall row :: row in rows[1..] ==> row in rows;
      var first, occ1 := RowMarked(rows[0], occ, env);
      var rest := RowsMarked(rows[1..], occ1, env);
      rows' := [first] + rest;
      MarkedFirst(rows, first, rest, occ, occ1, env);
    }
  }

  lemma {:induction false} MarkedFirst(rows: seq<Row>, first: Row, rest: seq<Row>, occ: Identity.Occurrences,
                                       occ1: Identity.Occurrences, env: Identity.Env)
    requires rows != [] && Identity.Visit(Object(RowFields(rows[0])), occ, env) == (Object(RowFields(first)), occ1)
    requires Identity.VisitItems(RowValues(rows[1..]), occ1, env).0 == RowValues(rest)
    requires first.(id := None, identityVersion := None) == rows[0] && Stripped(rest) == rows[1..]
    ensures Identity.VisitItems(RowValues(rows), occ, env).0 == RowValues([first] + rest)
    ensures Stripped([first] + rest) == rows
  {
    RowsTail(rows);
    RowsTail([first] + rest);
    VisitedFirst(RowValues(rows), Object(RowFields(first)), RowValues(rest), occ, occ1, env);
  }

  lemma RowsTail(rows: seq<Row>)
    requires rows != []
    ensures RowValues(rows) == [Object(RowFields(rows[0]))] + RowValues(rows[1..])
    ensures RowValues(rows)[1..] == RowValues(rows[1..])
    ensures Stripped(rows) == [rows[0].(id := None, identityVersion := None)] + Stripped(rows[1..])
  {
  }

  lemma VisitedFirst(items: seq<Value>, first: Value, rest: seq<Value>, occ: Identity.Occurrences,
                     occ1: Identity.Occurrences, env: Identity.Env)
    requires items != [] && Identity.Visit(items[0], occ, env) == (first, occ1)
    requires Identity.VisitItems(items[1..], occ1, env).0 == rest
    ensures Identity.VisitItems(items, occ, env).0 == [first] + rest
  {
  }

  /** The payload that normalization makes of the produced one, whatever was counted before it comes to the
      violations, passes the consumer's check. */
  lemma NormalizedAccepted(inv: Inventory, rules: seq<Patterns.Rule>, fingerprintComplete: bool, h: ContextHash,
                           text: Row -> string, occ: Identity.Occurrences, env: Identity.Env) returns (v: Policy)
    requires IsUnitSet(inv.expected) && InventoryOk(inv, h)
    ensures var made := MakePolicy(inv, rules, fingerprintComplete, h, text);
            && v == made.(violations := v.violations)
            && RowValues(v.violations) == Identity.VisitItems(RowValues(made.violations), occ, env).0
    ensures PolicyOk(v, fingerprintComplete, h, text)
  {
    var made := MakePolicy(inv, rules, fingerprintComplete, h, text);
    MadeFresh(inv, rules, fingerprintComplete, h, text);
    StrippedFresh(made.violations);
    var rows := RowsMarked(made.violations, occ, env);
    v := made.(violations := rows);
    NormalizedPolicyAccepted(inv, rules, fingerprintComplete, h, text, v);
  }

  lemma StrippedFresh(rows: seq<Row>)
    requires Stripped(rows) == rows
    ensures forall row :: row in rows ==> row.id == None && row.identityVersion == None
  {
    forall row | row in rows ensures row.id == None && row.identityVersion == None {
      var i :| 0 <= i < |rows| && rows[i] == row;
      assert Stripped(rows)[i] == row;
    }
  }
}
