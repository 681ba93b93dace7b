/** Stable finding identities: every object with a rule is numbered within its subject, in traversal
    order (src/findings.rs). */
module Identity {
  import opened Order
  import opened Json
  import Permutations

  /** What the walk reads from outside: source lines by path and zero-based index, white-space
      squeezing, and `stable_hash`. */
  datatype Env = Env(lineAt: (string, nat) -> Option<string>, squeeze: string -> string, hash: string -> string)

  type Occurrences = map<string, nat>

  const VERSION: Value := Text("source-anchor-v1")

  // ----- Sizes, for termination -----

  function Size(v: Value): nat
    decreases v
  {
    match v
    case Array(items) => 1 + ItemsSize(items)
    case Object(fields) => 1 + FieldsSize(fields)
    case _ => 0
  }

  function ItemsSize(items: seq<Value>): nat {
    if items == [] then 0 else Size(items[0]) + ItemsSize(items[1..])
  }

  function FieldsSize(fields: seq<Field>): nat {
    if fields == [] then 0 else Size(fields[0].value) + FieldsSize(fields[1..])
  }

  lemma {:induction false} TextAddsNothing(fields: seq<Field>, key: string, text: string)
    ensures FieldsSize(Insert(fields, key, Text(text))) <= FieldsSize(fields)
  {
    if fields != [] && !Less(key, fields[0].key) && fields[0].key != key {
      TextAddsNothing(fields[1..], key, text);
    }
  }

  // ----- Subjects -----

  /** `as_u64`. */
  function AsLine(v: Option<Value>): Option<nat> {
    if v.Some? && v.value.Number? && 0 <= v.value.n < 0x1_0000_0000_0000_0000 then Some(v.value.n) else None
  }

  function Anchor(fields: seq<Field>, rule: string, path: string, env: Env): string {
    var line := AsLine(Lookup(fields, "line"));
    var source := if line.Some? then env.lineAt(path, if line.value == 0 then 0 else line.value - 1) else None;
    if source.Some? then source.value
    else
      var named := if Lookup(fields, "message").Some? then Lookup(fields, "message") else Lookup(fields, "title");
      if AsText(named).Some? then AsText(named).value else rule
  }

  /** The subject of an object with a textual rule. */
  function SubjectOf(fields: seq<Field>, env: Env): Option<string> {
    match AsText(Lookup(fields, "rule_id"))
    case None => None
    case Some(rule) =>
      var path := if AsText(Lookup(fields, "path")).Some? then AsText(Lookup(fields, "path")).value else "";
      Some("rust-quality-lens\0" + rule + "\0" + path + "\0" + env.squeeze(Anchor(fields, rule, path, env)))
  }

  /** What a finding is anchored to: the text of its source line, or without one its message or title, or without
      those its rule. */
  ghost predicate IsAnchor(fields: seq<Field>, rule: string, path: string, env: Env, anchor: string) {
    if exists n :: Lookup(fields, "line") == Some(Number(n)) && 0 <= n < 0x1_0000_0000_0000_0000
                   && env.lineAt(path, if n <= 1 then 0 else n - 1).Some?
    then exists n :: Lookup(fields, "line") == Some(Number(n)) && env.lineAt(path, if n <= 1 then 0 else n - 1) == Some(anchor)
    else match Lookup(fields, "message")
      case Some(message) => anchor == (if message.Text? then message.s else rule)
      case None =>
        match Lookup(fields, "title")
        case Some(title) => anchor == (if title.Text? then title.s else rule)
        case None => anchor == rule
  }

  lemma AnchorMeans(fields: seq<Field>, rule: string, path: string, env: Env, anchor: string)
    ensures IsAnchor(fields, rule, path, env, anchor) <==> anchor == Anchor(fields, rule, path, env)
  {
  }

  /** The record names its rule, and its path if it has one, in text without zero characters. */
  ghost predicate About(fields: seq<Field>, rule: string, path: string) {
    && Lookup(fields, "rule_id") == Some(Text(rule)) && '\0' !in rule && '\0' !in path
    && match Lookup(fields, "path")
       case Some(Text(named)) => path == named
       case _ => path == ""
  }

  lemma EndedAlike(a: string, b: string, s: string, t: string)
    requires '\0' !in a && '\0' !in b && a + "\0" + s == b + "\0" + t
    ensures a == b && s == t
  {
    var k := if |a| <= |b| then |a| else |b|;
    CharacterAt(a, s, k);
    CharacterAt(b, t, k);
    var whole := a + "\0" + s;
    assert a == whole[..|a|] && s == whole[|a| + 1..];
    assert b == (b + "\0" + t)[..|b|] && t == (b + "\0" + t)[|b| + 1..];
  }

  lemma CharacterAt(a: string, s: string, k: nat)
    requires k <= |a|
    ensures (a + "\0" + s)[k] == if k < |a| then a[k] else '\0'
  {
  }

  /** Two records have the same subject exactly when they are about the same rule and path and their anchors agree up
      to white space: lines may have shifted, and messages do not matter where there is a source line. */
  lemma SubjectsAlikeIff(a: seq<Field>, env: Env, b: seq<Field>, env': Env,
                         rule: string, path: string, rule': string, path': string, anchor: string, anchor': string)
    requires About(a, rule, path) && IsAnchor(a, rule, path, env, anchor)
    requires About(b, rule', path') && IsAnchor(b, rule', path', env', anchor')
    ensures SubjectOf(a, env).Some? && SubjectOf(b, env').Some?
    ensures SubjectOf(a, env) == SubjectOf(b, env') <==>
            rule == rule' && path == path' && env.squeeze(anchor) == env'.squeeze(anchor')
  {
    AnchorMeans(a, rule, path, env, anchor);
    AnchorMeans(b, rule', path', env', anchor');
    var x, y := env.squeeze(anchor), env'.squeeze(anchor');
    var s, t := path + "\0" + x, path' + "\0" + y;
    var prefix := "rust-quality-lens\0";
    assert SubjectOf(a, env).value == prefix + (rule + "\0" + s) && SubjectOf(b, env').value == prefix + (rule' + "\0" + t);
    if SubjectOf(a, env) == SubjectOf(b, env') {
      assert (prefix + (rule + "\0" + s))[|prefix|..] == rule + "\0" + s;
      assert (prefix + (rule' + "\0" + t))[|prefix|..] == rule' + "\0" + t;
      EndedAlike(rule, rule', s, t);
      EndedAlike(path, path', x, y);
    }
  }

  function Decimal(n: nat): string {
    if n < 10 then ['0' + n as char] else Decimal(n / 10) + ['0' + (n % 10) as char]
  }

  function Id(subject: string, n: nat, env: Env): string {
    "rqlens:" + env.hash(subject) + ":" + Decimal(n)
  }

  function Seen(occ: Occurrences, subject: string): nat {
    if subject in occ then occ[subject] else 0
  }

  function Bump(occ: Occurrences, subject: string): Occurrences {
    occ[subject := Seen(occ, subject) + 1]
  }

  function Mark(fields: seq<Field>, id: string): seq<Field> {
    Insert(Insert(fields, "id", Text(id)), "identity_version", VERSION)
  }

  lemma MarkSize(fields: seq<Field>, id: string)
    ensures FieldsSize(Mark(fields, id)) <= FieldsSize(fields)
  {
    TextAddsNothing(fields, "id", id);
    TextAddsNothing(Insert(fields, "id", Text(id)), "identity_version", "source-anchor-v1");
  }

  // ----- The walk -----

  function Visit(v: Value, occ: Occurrences, env: Env): (Value, Occurrences)
    decreases Size(v), 0
  {
    match v
    case Array(items) =>
      var r := VisitItems(items, occ, env);
      (Array(r.0), r.1)
    case Object(fields) =>
      (match SubjectOf(fields, env)
       case None =>
         var r := VisitFields(fields, occ, env);
         (Object(r.0), r.1)
       case Some(subject) =>
         var id := Id(subject, Seen(occ, subject) + 1, env);
         MarkSize(fields, id);
         var r := VisitFields(Mark(fields, id), Bump(occ, subject), env);
         (Object(r.0), r.1))
    case _ => (v, occ)
  }

  function VisitItems(items: seq<Value>, occ: Occurrences, env: Env): (seq<Value>, Occurrences)
    decreases ItemsSize(items), 1 + |items|
  {
    if items == [] then ([], occ)
    else
      var head := Visit(items[0], occ, env);
      var rest := VisitItems(items[1..], head.1, env);
      ([head.0] + rest.0, rest.1)
  }

  function VisitFields(fields: seq<Field>, occ: Occurrences, env: Env): (seq<Field>, Occurrences)
    decreases FieldsSize(fields), 1 + |fields|
  {
    if fields == [] then ([], occ)
    else
      var head := Visit(fields[0].value, occ, env);
      var rest := VisitFields(fields[1..], head.1, env);
      ([Field(fields[0].key, head.0)] + rest.0, rest.1)
  }

  /** `normalize_records`: one occurrence table for all records. */
  function Normalize(records: seq<Value>, env: Env): seq<Value> {
    VisitItems(records, map[], env).0
  }

  // ----- The same walk as the loops that rewrite the rows -----

  method Rewrite(value: Value, occ: Occurrences, env: Env) returns (value': Value, occ': Occurrences)
    ensures (value', occ') == Visit(value, occ, env)
    decreases Size(value), 0
  {
    match value {
      case Array(items) =>
        var items';
        items', occ' := RewriteItems(items, occ, env);
        value' := Array(items');
      case Object(fields) =>
        var item := fields;
        occ' := occ;
        var subject := SubjectOf(item, env);
        if subject.Some? {
          occ' := Bump(occ', subject.value);
          var id := Id(subject.value, occ'[subject.value], env);
          MarkSize(item, id);
          item := Insert(item, "id", Text(id));
          item := Insert(item, "identity_version", VERSION);
        }
        item, occ' := RewriteFields(item, occ', env);
        value' := Object(item);
      case _ =>
        value', occ' := value, occ;
    }
  }

  method RewriteItems(items: seq<Value>, occ: Occurrences, env: Env) returns (items': seq<Value>, occ': Occurrences)
    ensures (items', occ') == VisitItems(items, occ, env)
    decreases ItemsSize(items), 1 + |items|
  {
    items', occ' := [], occ;
    ghost var whole := VisitItems(items, occ, env);
    assert items[0..] == items && [] + whole.0 == whole.0;
    for i := 0 to |items|
      invariant whole.0 == items' + VisitItems(items[i..], occ', env).0
      invariant whole.1 == VisitItems(items[i..], occ', env).1
    {
      ItemWithin(items, i);
      ghost var rest := items[i..];
      assert rest[1..] == items[i + 1..];
      ghost var done, more := items', VisitItems(rest, occ', env).0;
      var item;
      item, occ' := Rewrite(items[i], occ', env);
      items' := items' + [item];
      assert done + more == items' + more[1..];
    }
    assert items[|items|..] == [] && items' + [] == items';
  }

  method RewriteFields(fields: seq<Field>, occ: Occurrences, env: Env) returns (fields': seq<Field>, occ': Occurrences)
    ensures (fields', occ') == VisitFields(fields, occ, env)
    decreases FieldsSize(fields), 1 + |fields|
  {
    fields', occ' := [], occ;
    ghost var whole := VisitFields(fields, occ, env);
    assert fields[0..] == fields && [] + whole.0 == whole.0;
    for i := 0 to |fields|
      invariant whole.0 == fields' + VisitFields(fields[i..], occ', env).0
      invariant whole.1 == VisitFields(fields[i..], occ', env).1
    {
      FieldWithin(fields, i);
      ghost var rest := fields[i..];
      assert rest[1..] == fields[i + 1..];
      ghost var done, more := fields', VisitFields(rest, occ', env).0;
      var child;
      child, occ' := Rewrite(fields[i].value, occ', env);
      fields' := fields' + [Field(fields[i].key, child)];
      assert done + more == fields' + more[1..];
    }
    assert fields[|fields|..] == [] && fields' + [] == fields';
  }

  lemma {:induction false} ItemWithin(items: seq<Value>, i: nat)
    requires i < |items|
    ensures Size(items[i]) <= ItemsSize(items)
  {
    if i > 0 { ItemWithin(items[1..], i - 1); }
  }

  lemma {:induction false} FieldWithin(fields: seq<Field>, i: nat)
    requires i < |fields|
    ensures Size(fields[i].value) <= FieldsSize(fields)
  {
    if i > 0 { FieldWithin(fields[1..], i - 1); }
  }

  // ----- Subjects met and identities given, in traversal order -----

  ghost function Subjects(v: Value, env: Env): seq<string>
    decreases Size(v), 0
  {
    match v
    case Array(items) => ItemsSubjects(items, env)
    case Object(fields) =>
      (match SubjectOf(fields, env)
       case None => FieldsSubjects(fields, env)
       case Some(subject) =>
         MarkSize(fields, "");
         [subject] + FieldsSubjects(Mark(fields, ""), env))
    case _ => []
  }

  ghost function ItemsSubjects(items: seq<Value>, env: Env): seq<string>
    decreases ItemsSize(items), 1 + |items|
  {
    if items == [] then [] else Subjects(items[0], env) + ItemsSubjects(items[1..], env)
  }

  ghost function FieldsSubjects(fields: seq<Field>, env: Env): seq<string>
    decreases FieldsSize(fields), 1 + |fields|
  {
    if fields == [] then [] else Subjects(fields[0].value, env) + FieldsSubjects(fields[1..], env)
  }

  /** The identities found in a value, for the objects that have a textual rule. */
  ghost function Ids(v: Value): seq<string>
    decreases v
  {
    match v
    case Array(items) => ItemsIds(items)
    case Object(fields) =>
      (if AsText(Lookup(fields, "rule_id")).Some? && AsText(Lookup(fields, "id")).Some?
       then [AsText(Lookup(fields, "id")).value] else [])
      + FieldsIds(fields)
    case _ => []
  }

  ghost function ItemsIds(items: seq<Value>): seq<string> {
    if items == [] then [] else Ids(items[0]) + ItemsIds(items[1..])
  }

  ghost function FieldsIds(fields: seq<Field>): seq<string> {
    if fields == [] then [] else Ids(fields[0].value) + FieldsIds(fields[1..])
  }

  ghost function Numbered(subjects: seq<string>, occ: Occurrences, env: Env): seq<string> {
    if subjects == [] then []
    else [Id(subjects[0], Seen(occ, subjects[0]) + 1, env)] + Numbered(subjects[1..], Bump(occ, subjects[0]), env)
  }

  ghost function Tallied(subjects: seq<string>, occ: Occurrences): Occurrences {
    if subjects == [] then occ else Tallied(subjects[1..], Bump(occ, subjects[0]))
  }

  lemma {:induction false} NumberedConcat(a: seq<string>, b: seq<string>, occ: Occurrences, env: Env)
    ensures Numbered(a + b, occ, env) == Numbered(a, occ, env) + Numbered(b, Tallied(a, occ), env)
    ensures Tallied(a + b, occ) == Tallied(b, Tallied(a, occ))
  {
    if a == [] {
      assert a + b == b;
    } else {
      var occ1 := Bump(occ, a[0]);
      assert (a + b)[1..] == a[1..] + b;
      NumberedConcat(a[1..], b, occ1, env);
      Permutations.Regroup([Id(a[0], Seen(occ, a[0]) + 1, env)], Numbered(a[1..], occ1, env),
                           Numbered(b, Tallied(a, occ), env));
    }
  }

  /** Text and numbers survive the walk, so what a field reads as does not change. */
  lemma {:induction false} ScalarsKept(fields: seq<Field>, occ: Occurrences, env: Env, key: string)
    ensures var r := VisitFields(fields, occ, env).0;
            && Lookup(r, key).Some? == Lookup(fields, key).Some?
            && AsText(Lookup(r, key)) == AsText(Lookup(fields, key))
            && AsLine(Lookup(r, key)) == AsLine(Lookup(fields, key))
    decreases |fields|
  {
    if fields != [] {
      var head := Visit(fields[0].value, occ, env);
      var rest := VisitFields(fields[1..], head.1, env).0;
      assert VisitFields(fields, occ, env).0[1..] == rest;
      ScalarsKept(fields[1..], head.1, env, key);
    }
  }

  lemma MarkedLookup(fields: seq<Field>, id: string, key: string)
    ensures Lookup(Mark(fields, id), key) ==
            if key == "identity_version" then Some(VERSION)
            else if key == "id" then Some(Text(id))
            else Lookup(fields, key)
  {
    LookupInsert(fields, "id", Text(id), key);
    LookupInsert(Insert(fields, "id", Text(id)), "identity_version", VERSION, key);
  }

  /** Equal up to the text of text values. */
  ghost predicate Alike(f: seq<Field>, g: seq<Field>) {
    if f == [] || g == [] then f == g
    else
      && f[0].key == g[0].key && (f[0].value == g[0].value || (f[0].value.Text? && g[0].value.Text?))
      && Alike(f[1..], g[1..])
  }

  lemma {:induction false} AlikeItself(f: seq<Field>)
    ensures Alike(f, f)
  {
    if f != [] { AlikeItself(f[1..]); }
  }

  lemma AlikeMore(x: Field, f: seq<Field>, y: Field, g: seq<Field>)
    requires Alike(f, g) && x.key == y.key && (x.value == y.value || (x.value.Text? && y.value.Text?))
    ensures Alike([x] + f, [y] + g)
  {
    assert ([x] + f)[1..] == f && ([y] + g)[1..] == g;
  }

  lemma {:induction false} InsertAlike(f: seq<Field>, g: seq<Field>, key: string, v: Value, w: Value)
    requires Alike(f, g) && (v == w || (v.Text? && w.Text?))
    ensures Alike(Insert(f, key, v), Insert(g, key, w))
  {
    if f == [] || Less(key, f[0].key) {
      AlikeMore(Field(key, v), f, Field(key, w), g);
    } else if f[0].key == key {
      AlikeMore(Field(key, v), f[1..], Field(key, w), g[1..]);
    } else {
      InsertAlike(f[1..], g[1..], key, v, w);
      AlikeMore(f[0], Insert(f[1..], key, v), g[0], Insert(g[1..], key, w));
    }
  }

  lemma {:induction false} AlikeSubjects(f: seq<Field>, g: seq<Field>, env: Env)
    requires Alike(f, g)
    ensures FieldsSubjects(f, env) == FieldsSubjects(g, env)
    decreases |f|
  {
    if f != [] {
      AlikeSubjects(f[1..], g[1..], env);
    }
  }

  lemma MarkSubjects(fields: seq<Field>, a: string, b: string, env: Env)
    ensures FieldsSubjects(Mark(fields, a), env) == FieldsSubjects(Mark(fields, b), env)
  {
    AlikeItself(fields);
    InsertAlike(fields, fields, "id", Text(a), Text(b));
    InsertAlike(Insert(fields, "id", Text(a)), Insert(fields, "id", Text(b)), "identity_version", VERSION, VERSION);
    AlikeSubjects(Mark(fields, a), Mark(fields, b), env);
  }

  /** The identities a walk gives are the numbered subjects it meets, in traversal order: they depend
      on nothing else in the value. */
  lemma {:induction false} VisitNumbers(v: Value, occ: Occurrences, env: Env)
    ensures Ids(Visit(v, occ, env).0) == Numbered(Subjects(v, env), occ, env)
    ensures Visit(v, occ, env).1 == Tallied(Subjects(v, env), occ)
    decreases Size(v), 1
  {
    match v
    case Array(items) => VisitItemsNumbers(items, occ, env);
    case Object(fields) =>
      var subject := SubjectOf(fields, env);
      if subject.None? {
        VisitFieldsNumbers(fields, occ, env);
        ScalarsKept(fields, occ, env, "rule_id");
      } else {
        ObjectNumbers(fields, subject.value, occ, env);
      }
    case _ =>
  }

  lemma {:induction false} ObjectNumbers(fields: seq<Field>, subject: string, occ: Occurrences, env: Env)
    requires SubjectOf(fields, env) == Some(subject)
    ensures Ids(Visit(Object(fields), occ, env).0) == Numbered(Subjects(Object(fields), env), occ, env)
    ensures Visit(Object(fields), occ, env).1 == Tallied(Subjects(Object(fields), env), occ)
    decreases Size(Object(fields)), 0
  {
    var id := Id(subject, Seen(occ, subject) + 1, env);
    var marked, occ1 := Mark(fields, id), Bump(occ, subject);
    MarkSize(fields, id);
    ObjectVisit(fields, subject, occ, env);
    VisitFieldsNumbers(marked, occ1, env);
    MarksRead(fields, id, occ1, env);
    MarkSubjects(fields, id, "", env);
    NumberedFirst(subject, FieldsSubjects(marked, env), occ, env);
    MarkedIds(VisitFields(marked, occ1, env).0, id);
  }

  lemma NumberedFirst(subject: string, rest: seq<string>, occ: Occurrences, env: Env)
    ensures Numbered([subject] + rest, occ, env)
         == [Id(subject, Seen(occ, subject) + 1, env)] + Numbered(rest, Bump(occ, subject), env)
    ensures Tallied([subject] + rest, occ) == Tallied(rest, Bump(occ, subject))
  {
    assert ([subject] + rest)[1..] == rest;
  }

  lemma MarkedIds(fields: seq<Field>, id: string)
    requires AsText(Lookup(fields, "rule_id")).Some? && AsText(Lookup(fields, "id")) == Some(id)
    ensures Ids(Object(fields)) == [id] + FieldsIds(fields)
  {
  }

  /** What visiting an object with a subject does: mark it, then walk its fields. */
  lemma ObjectVisit(fields: seq<Field>, subject: string, occ: Occurrences, env: Env)
    requires SubjectOf(fields, env) == Some(subject)
    ensures var id := Id(subject, Seen(occ, subject) + 1, env);
            var r := VisitFields(Mark(fields, id), Bump(occ, subject), env);
            Visit(Object(fields), occ, env) == (Object(r.0), r.1)
  {
  }

  /** After the walk, a marked object reads as one with a rule and this id. */
  lemma MarksRead(fields: seq<Field>, id: string, occ: Occurrences, env: Env)
    ensures var r := VisitFields(Mark(fields, id), occ, env).0;
            && AsText(Lookup(r, "rule_id")) == AsText(Lookup(fields, "rule_id"))
            && AsText(Lookup(r, "id")) == Some(id)
  {
    ScalarsKept(Mark(fields, id), occ, env, "rule_id");
    ScalarsKept(Mark(fields, id), occ, env, "id");
    MarkedLookup(fields, id, "rule_id");
    MarkedLookup(fields, id, "id");
  }

  lemma {:induction false} VisitItemsNumbers(items: seq<Value>, occ: Occurrences, env: Env)
    ensures ItemsIds(VisitItems(items, occ, env).0) == Numbered(ItemsSubjects(items, env), occ, env)
    ensures VisitItems(items, occ, env).1 == Tallied(ItemsSubjects(items, env), occ)
    decreases ItemsSize(items), 2 + |items|
  {
    if items != [] {
      var head := Visit(items[0], occ, env);
      VisitNumbers(items[0], occ, env);
      VisitItemsNumbers(items[1..], head.1, env);
      NumberedConcat(Subjects(items[0], env), ItemsSubjects(items[1..], env), occ, env);
      assert VisitItems(items, occ, env).0[1..] == VisitItems(items[1..], head.1, env).0;
    }
  }

  lemma {:induction false} VisitFieldsNumbers(fields: seq<Field>, occ: Occurrences, env: Env)
    ensures FieldsIds(VisitFields(fields, occ, env).0) == Numbered(FieldsSubjects(fields, env), occ, env)
    ensures VisitFields(fields, occ, env).1 == Tallied(FieldsSubjects(fields, env), occ)
    decreases FieldsSize(fields), 2 + |fields|
  {
    if fields != [] {
      var head := Visit(fields[0].value, occ, env);
      VisitNumbers(fields[0].value, occ, env);
      VisitFieldsNumbers(fields[1..], head.1, env);
      NumberedConcat(Subjects(fields[0].value, env), FieldsSubjects(fields[1..], env), occ, env);
      assert VisitFields(fields, occ, env).0[1..] == VisitFields(fields[1..], head.1, env).0;
    }
  }

  // ----- Distinct identities, occurrences 1..n -----

  function Count(subjects: seq<string>, subject: string): nat {
    if subjects == [] then 0
    else Count(subjects[..|subjects| - 1], subject) + if subjects[|subjects| - 1] == subject then 1 else 0
  }

  lemma {:induction false} CountCons(first: string, rest: seq<string>, subject: string)
    ensures Count([first] + rest, subject) == (if first == subject then 1 else 0) + Count(rest, subject)
    decreases |rest|
  {
    var all := [first] + rest;
    if rest == [] {
      assert all[..0] == [];
    } else {
      assert all[..|all| - 1] == [first] + rest[..|rest| - 1];
      CountCons(first, rest[..|rest| - 1], subject);
    }
  }

  /** The i-th object met is numbered by how often its subject has been met up to there: the first is
      1, the next 2, and so on without gaps. */
  lemma {:induction false} NumberedAt(subjects: seq<string>, occ: Occurrences, env: Env, i: nat)
    requires i < |subjects|
    ensures |Numbered(subjects, occ, env)| == |subjects|
    ensures Numbered(subjects, occ, env)[i]
         == Id(subjects[i], Seen(occ, subjects[i]) + Count(subjects[..i + 1], subjects[i]), env)
  {
    var rest, occ1 := subjects[1..], Bump(occ, subjects[0]);
    NumberedLength(rest, occ1, env);
    assert subjects[..i + 1] == [subjects[0]] + rest[..i];
    CountCons(subjects[0], rest[..i], subjects[i]);
    if i > 0 {
      NumberedAt(rest, occ1, env, i - 1);
    } else {
      assert Count(rest[..0], subjects[0]) == 0;
    }
  }

  lemma {:induction false} NumberedLength(subjects: seq<string>, occ: Occurrences, env: Env)
    ensures |Numbered(subjects, occ, env)| == |subjects|
  {
    if subjects != [] { NumberedLength(subjects[1..], Bump(occ, subjects[0]), env); }
  }

  lemma {:induction false} CountMonotone(subjects: seq<string>, subject: string, i: nat, j: nat)
    requires i <= j <= |subjects|
    ensures Count(subjects[..i], subject) <= Count(subjects[..j], subject)
    decreases j
  {
    if i < j {
      assert subjects[..j][..j - 1] == subjects[..j - 1];
      CountMonotone(subjects, subject, i, j - 1);
    }
  }

  lemma {:induction false} DecimalInjective(m: nat, n: nat)
    requires Decimal(m) == Decimal(n)
    ensures m == n
  {
    var a, b := Decimal(m), Decimal(n);
    DecimalEnds(m);
    DecimalEnds(n);
    if m >= 10 && n >= 10 {
      assert a[..|a| - 1] == Decimal(m / 10) && b[..|b| - 1] == Decimal(n / 10);
      DecimalInjective(m / 10, n / 10);
    }
  }

  lemma {:induction false} DecimalEnds(n: nat)
    ensures |Decimal(n)| >= 1 && (|Decimal(n)| == 1 <==> n < 10)
    ensures Decimal(n)[|Decimal(n)| - 1] == '0' + (n % 10) as char
  {
    if n >= 10 { DecimalEnds(n / 10); }
  }

  /** The hash tells the subjects apart; it always renders as sixteen digits. */
  ghost predicate HashSeparates(subjects: seq<string>, env: Env) {
    && (forall s :: |env.hash(s)| == 16)
    && forall i, j :: 0 <= i < |subjects| && 0 <= j < |subjects| && env.hash(subjects[i]) == env.hash(subjects[j]) ==>
         subjects[i] == subjects[j]
  }

  lemma IdParts(s: string, m: nat, t: string, n: nat, env: Env)
    requires |env.hash(s)| == 16 && |env.hash(t)| == 16 && Id(s, m, env) == Id(t, n, env)
    ensures env.hash(s) == env.hash(t) && Decimal(m) == Decimal(n)
  {
    var a, b := Id(s, m, env), Id(t, n, env);
    assert a[7..23] == env.hash(s) && b[7..23] == env.hash(t);
    assert a[24..] == Decimal(m) && b[24..] == Decimal(n);
  }

  /** All identities assigned in one normalization are pairwise distinct, over any JSON records. */
  lemma IdentitiesDistinct(records: seq<Value>, env: Env)
    requires HashSeparates(ItemsSubjects(records, env), env)
    ensures var ids := ItemsIds(Normalize(records, env));
            |ids| == |ItemsSubjects(records, env)| && forall i, j :: 0 <= i < j < |ids| ==> ids[i] != ids[j]
  {
    var subjects := ItemsSubjects(records, env);
    VisitItemsNumbers(records, map[], env);
    NumberedLength(subjects, map[], env);
    forall i, j | 0 <= i < j < |subjects|
      ensures Numbered(subjects, map[], env)[i] != Numbered(subjects, map[], env)[j]
    {
      NumbersDiffer(subjects, env, i, j);
    }
  }

  lemma NumbersDiffer(subjects: seq<string>, env: Env, i: nat, j: nat)
    requires HashSeparates(subjects, env) && i < j < |subjects|
    ensures |Numbered(subjects, map[], env)| == |subjects|
    ensures Numbered(subjects, map[], env)[i] != Numbered(subjects, map[], env)[j]
  {
    var s, t := subjects[i], subjects[j];
    NumberedAt(subjects, map[], env, i);
    NumberedAt(subjects, map[], env, j);
    var m, n := Count(subjects[..i + 1], s), Count(subjects[..j + 1], t);
    CountMonotone(subjects, s, i + 1, j);
    assert subjects[..j + 1][..j] == subjects[..j];
    assert s == t ==> m < n;
    if Id(s, m, env) == Id(t, n, env) {
      IdParts(s, m, t, n, env);
      DecimalInjective(m, n);
    }
  }

  // ----- Idempotence -----

  ghost predicate Sane(v: Value)
    decreases v
  {
    match v
    case Array(items) => SaneItems(items)
    case Object(fields) => KeysSorted(fields) && SaneFields(fields)
    case _ => true
  }

  ghost predicate SaneItems(items: seq<Value>) {
    items == [] || (Sane(items[0]) && SaneItems(items[1..]))
  }

  ghost predicate SaneFields(fields: seq<Field>) {
    fields == [] || (Sane(fields[0].value) && SaneFields(fields[1..]))
  }

  lemma {:induction false} KeysKept(fields: seq<Field>, occ: Occurrences, env: Env)
    ensures var r := VisitFields(fields, occ, env).0;
            |r| == |fields| && forall i :: 0 <= i < |r| ==> r[i].key == fields[i].key
    decreases |fields|
  {
    if fields != [] {
      var head := Visit(fields[0].value, occ, env);
      KeysKept(fields[1..], head.1, env);
    }
  }

  lemma {:induction false} TextKept(fields: seq<Field>, occ: Occurrences, env: Env, key: string)
    requires Lookup(fields, key).Some? && Lookup(fields, key).value.Text?
    ensures Lookup(VisitFields(fields, occ, env).0, key) == Lookup(fields, key)
    decreases |fields|
  {
    var head := Visit(fields[0].value, occ, env);
    assert VisitFields(fields, occ, env).0[1..] == VisitFields(fields[1..], head.1, env).0;
    if fields[0].key != key {
      TextKept(fields[1..], head.1, env, key);
    }
  }

  lemma {:induction false} SaneInsert(fields: seq<Field>, key: string, text: string)
    requires SaneFields(fields)
    ensures SaneFields(Insert(fields, key, Text(text)))
  {
    if fields != [] && !Less(key, fields[0].key) && fields[0].key != key {
      SaneInsert(fields[1..], key, text);
    }
  }

  lemma MarkSane(fields: seq<Field>, id: string)
    requires KeysSorted(fields) && SaneFields(fields)
    ensures KeysSorted(Mark(fields, id)) && SaneFields(Mark(fields, id))
  {
    InsertKeepsSorted(fields, "id", Text(id));
    SaneInsert(fields, "id", id);
    InsertKeepsSorted(Insert(fields, "id", Text(id)), "identity_version", VERSION);
    SaneInsert(Insert(fields, "id", Text(id)), "identity_version", "source-anchor-v1");
  }

  lemma SubjectKept(fields: seq<Field>, marked: seq<Field>, occ: Occurrences, env: Env)
    requires marked == fields || exists id :: marked == Mark(fields, id)
    ensures SubjectOf(VisitFields(marked, occ, env).0, env) == SubjectOf(fields, env)
  {
    forall key | key in {"rule_id", "path", "line", "message", "title"}
      ensures var r := VisitFields(marked, occ, env).0;
              && Lookup(r, key).Some? == Lookup(fields, key).Some?
              && AsText(Lookup(r, key)) == AsText(Lookup(fields, key))
              && AsLine(Lookup(r, key)) == AsLine(Lookup(fields, key))
    {
      ScalarsKept(marked, occ, env, key);
      if marked != fields {
        var id :| marked == Mark(fields, id);
        MarkedLookup(fields, id, key);
      }
    }
  }

  /** Walking a walked value again, from the same occurrence table, changes nothing. */
  lemma {:induction false} VisitAgain(v: Value, occ: Occurrences, env: Env)
    requires Sane(v)
    ensures Visit(Visit(v, occ, env).0, occ, env) == Visit(v, occ, env)
    decreases Size(v), 1
  {
    match v
    case Array(items) => VisitItemsAgain(items, occ, env);
    case Object(fields) =>
      var subject := SubjectOf(fields, env);
      if subject.None? {
        SubjectKept(fields, fields, occ, env);
        VisitFieldsAgain(fields, occ, env);
      } else {
        ObjectAgain(fields, subject.value, occ, env);
      }
    case _ =>
  }

  lemma {:induction false} ObjectAgain(fields: seq<Field>, subject: string, occ: Occurrences, env: Env)
    requires KeysSorted(fields) && SaneFields(fields) && SubjectOf(fields, env) == Some(subject)
    ensures Visit(Visit(Object(fields), occ, env).0, occ, env) == Visit(Object(fields), occ, env)
    decreases Size(Object(fields)), 0
  {
    var id := Id(subject, Seen(occ, subject) + 1, env);
    var marked, occ1 := Mark(fields, id), Bump(occ, subject);
    MarkSize(fields, id);
    MarkSane(fields, id);
    VisitFieldsAgain(marked, occ1, env);
    SubjectKept(fields, marked, occ1, env);
    MarkKept(fields, id, occ1, env);
    MarkedAgain(fields, VisitFields(marked, occ1, env).0, subject, occ, env);
  }

  lemma MarkedAgain(fields: seq<Field>, r: seq<Field>, subject: string, occ: Occurrences, env: Env)
    requires SubjectOf(fields, env) == Some(subject) == SubjectOf(r, env)
    requires var id, occ1 := Id(subject, Seen(occ, subject) + 1, env), Bump(occ, subject);
             && r == VisitFields(Mark(fields, id), occ1, env).0 && Mark(r, id) == r
             && VisitFields(r, occ1, env) == VisitFields(Mark(fields, id), occ1, env)
    ensures Visit(Visit(Object(fields), occ, env).0, occ, env) == Visit(Object(fields), occ, env)
  {
    ObjectVisit(fields, subject, occ, env);
    ObjectVisit(r, subject, occ, env);
  }

  /** Walking marked fields leaves the marks as they are. */
  lemma MarkKept(fields: seq<Field>, id: string, occ: Occurrences, env: Env)
    requires KeysSorted(fields) && SaneFields(fields)
    ensures var r := VisitFields(Mark(fields, id), occ, env).0; Mark(r, id) == r
  {
    var marked := Mark(fields, id);
    var r := VisitFields(marked, occ, env).0;
    MarkSane(fields, id);
    MarkedLookup(fields, id, "id");
    MarkedLookup(fields, id, "identity_version");
    TextKept(marked, occ, env, "id");
    TextKept(marked, occ, env, "identity_version");
    KeysKept(marked, occ, env);
    InsertSame(r, "id", Text(id));
    InsertSame(r, "identity_version", VERSION);
  }

  lemma {:induction false} VisitItemsAgain(items: seq<Value>, occ: Occurrences, env: Env)
    requires SaneItems(items)
    ensures VisitItems(VisitItems(items, occ, env).0, occ, env) == VisitItems(items, occ, env)
    decreases ItemsSize(items), 2 + |items|
  {
    if items != [] {
      var head := Visit(items[0], occ, env);
      VisitAgain(items[0], occ, env);
      VisitItemsAgain(items[1..], head.1, env);
      assert VisitItems(items, occ, env).0[1..] == VisitItems(items[1..], head.1, env).0;
    }
  }

  lemma {:induction false} VisitFieldsAgain(fields: seq<Field>, occ: Occurrences, env: Env)
    requires SaneFields(fields)
    ensures VisitFields(VisitFields(fields, occ, env).0, occ, env) == VisitFields(fields, occ, env)
    decreases FieldsSize(fields), 2 + |fields|
  {
    if fields != [] {
      var head := Visit(fields[0].value, occ, env);
      VisitAgain(fields[0].value, occ, env);
      VisitFieldsAgain(fields[1..], head.1, env);
      assert VisitFields(fields, occ, env).0[1..] == VisitFields(fields[1..], head.1, env).0;
    }
  }

  /** Normalization is idempotent. */
  lemma NormalizeIdempotent(records: seq<Value>, env: Env)
    requires SaneItems(records)
    ensures Normalize(Normalize(records, env), env) == Normalize(records, env)
  {
    VisitItemsAgain(records, map[], env);
  }

  // ----- What the walk leaves alone -----

  lemma {:induction false} WithoutSubjectsUntouched(v: Value, occ: Occurrences, env: Env)
    requires Subjects(v, env) == []
    ensures Visit(v, occ, env) == (v, occ)
    decreases Size(v), 0
  {
    match v
    case Array(items) => ItemsUntouched(items, occ, env);
    case Object(fields) =>
      assert SubjectOf(fields, env).None?;
      FieldsUntouched(fields, occ, env);
    case _ =>
  }

  lemma {:induction false} ItemsUntouched(items: seq<Value>, occ: Occurrences, env: Env)
    requires ItemsSubjects(items, env) == []
    ensures VisitItems(items, occ, env) == (items, occ)
    decreases ItemsSize(items), 1 + |items|
  {
    if items != [] {
      WithoutSubjectsUntouched(items[0], occ, env);
      ItemsUntouched(items[1..], occ, env);
      assert items == [items[0]] + items[1..];
    }
  }

  lemma {:induction false} FieldsUntouched(fields: seq<Field>, occ: Occurrences, env: Env)
    requires FieldsSubjects(fields, env) == []
    ensures VisitFields(fields, occ, env) == (fields, occ)
    decreases FieldsSize(fields), 1 + |fields|
  {
    if fields != [] {
      WithoutSubjectsUntouched(fields[0].value, occ, env);
      FieldsUntouched(fields[1..], occ, env);
      assert fields == [Field(fields[0].key, fields[0].value)] + fields[1..];
    }
  }

  lemma {:induction false} InsertSubjects(fields: seq<Field>, key: string, value: Value, env: Env)
    requires FieldsSubjects(fields, env) == [] && Subjects(value, env) == []
    ensures FieldsSubjects(Insert(fields, key, value), env) == []
    decreases |fields|
  {
    var r := Insert(fields, key, value);
    if fields == [] || Less(key, fields[0].key) {
      assert r[1..] == fields;
    } else if fields[0].key == key {
      assert r[1..] == fields[1..];
    } else {
      InsertSubjects(fields[1..], key, value, env);
      assert r[1..] == Insert(fields[1..], key, value);
    }
  }

  /** An object with a rule and no rule below it only gains its two marks. */
  lemma OnlyMarked(fields: seq<Field>, occ: Occurrences, env: Env) returns (id: string, occ': Occurrences)
    requires SubjectOf(fields, env).Some? && FieldsSubjects(fields, env) == []
    ensures Visit(Object(fields), occ, env) == (Object(Mark(fields, id)), occ')
  {
    var subject := SubjectOf(fields, env).value;
    id := Id(subject, Seen(occ, subject) + 1, env);
    occ' := Bump(occ, subject);
    ObjectVisit(fields, subject, occ, env);
    InsertSubjects(fields, "id", Text(id), env);
    InsertSubjects(Insert(fields, "id", Text(id)), "identity_version", VERSION, env);
    FieldsUntouched(Mark(fields, id), occ', env);
  }

  // ----- Every record is marked, however deep -----

  ghost predicate Inside(part: Value, v: Value)
    decreases v
  {
    || part == v
    || match v
       case Array(items) => exists item :: item in items && Inside(part, item)
       case Object(fields) => exists f :: f in fields && Inside(part, f.value)
       case _ => false
  }

  /** An object with a textual rule carries an identity and its version. */
  ghost predicate Marked(v: Value) {
    v.Object? && AsText(Lookup(v.fields, "rule_id")).Some? ==>
      AsText(Lookup(v.fields, "id")).Some? && Lookup(v.fields, "identity_version") == Some(VERSION)
  }

  /** After the walk every object with a rule, at any depth, is marked. */
  lemma {:induction false} VisitMarks(v: Value, occ: Occurrences, env: Env, part: Value)
    requires Inside(part, Visit(v, occ, env).0)
    ensures Marked(part)
    decreases Size(v), 2
  {
    match v
    case Array(items) =>
      if part != Visit(v, occ, env).0 {
        ItemsMarked(items, occ, env, part);
      }
    case Object(fields) =>
      if SubjectOf(fields, env).None? {
        UnmarkedRead(fields, occ, env);
        if part != Visit(v, occ, env).0 {
          FieldsMarked(fields, occ, env, part);
        }
      } else {
        MarkedVisit(fields, occ, env, part);
      }
    case _ =>
  }

  lemma UnmarkedRead(fields: seq<Field>, occ: Occurrences, env: Env)
    requires SubjectOf(fields, env).None?
    ensures Marked(Object(VisitFields(fields, occ, env).0))
  {
    ScalarsKept(fields, occ, env, "rule_id");
  }

  lemma {:induction false} MarkedVisit(fields: seq<Field>, occ: Occurrences, env: Env, part: Value)
    requires SubjectOf(fields, env).Some? && Inside(part, Visit(Object(fields), occ, env).0)
    ensures Marked(part)
    decreases Size(Object(fields)), 1
  {
    var subject := SubjectOf(fields, env).value;
    var id := Id(subject, Seen(occ, subject) + 1, env);
    var marked, occ1 := Mark(fields, id), Bump(occ, subject);
    MarkSize(fields, id);
    ObjectVisit(fields, subject, occ, env);
    MarksRead(fields, id, occ1, env);
    ScalarsKept(marked, occ1, env, "identity_version");
    MarkedLookup(fields, id, "identity_version");
    if part != Visit(Object(fields), occ, env).0 {
      FieldsMarked(marked, occ1, env, part);
    }
  }

  lemma {:induction false} ItemsMarked(items: seq<Value>, occ: Occurrences, env: Env, part: Value)
    requires exists item :: item in VisitItems(items, occ, env).0 && Inside(part, item)
    ensures Marked(part)
    decreases ItemsSize(items), 3 + |items|
  {
    var head := Visit(items[0], occ, env);
    if Inside(part, head.0) {
      VisitMarks(items[0], occ, env, part);
    } else {
      ItemsMarked(items[1..], head.1, env, part);
    }
  }

  lemma {:induction false} FieldsMarked(fields: seq<Field>, occ: Occurrences, env: Env, part: Value)
    requires exists f :: f in VisitFields(fields, occ, env).0 && Inside(part, f.value)
    ensures Marked(part)
    decreases FieldsSize(fields), 3 + |fields|
  {
    var head := Visit(fields[0].value, occ, env);
    if Inside(part, head.0) {
      VisitMarks(fields[0].value, occ, env, part);
    } else {
      FieldsMarked(fields[1..], head.1, env, part);
    }
  }
}
