/** JSON values; an object lists its fields in key order, as serde_json's map iterates. */
module Json {
  import opened Order

  datatype Value =
    | Null
    | Bool(b: bool)
    | Number(n: int)
    | Text(s: string)
    | Array(items: seq<Value>)
    | Object(fields: seq<Field>)

  datatype Field = Field(key: string, value: Value)

  function Lookup(fields: seq<Field>, key: string): Option<Value> {
    if fields == [] then None
    else if fields[0].key == key then Some(fields[0].value)
    else Lookup(fields[1..], key)
  }

  function Insert(fields: seq<Field>, key: string, value: Value): seq<Field> {
    if fields == [] || Less(key, fields[0].key) then [Field(key, value)] + fields
    else if fields[0].key == key then [Field(key, value)] + fields[1..]
    else [fields[0]] + Insert(fields[1..], key, value)
  }

  function Remove(fields: seq<Field>, key: string): seq<Field> {
    if fields == [] then []
    else if fields[0].key == key then fields[1..]
    else [fields[0]] + Remove(fields[1..], key)
  }

  ghost predicate KeysSorted(fields: seq<Field>) {
    forall i, j :: 0 <= i < j < |fields| ==> Less(fields[i].key, fields[j].key)
  }

  function AsText(v: Option<Value>): Option<string> {
    if v.Some? && v.value.Text? then Some(v.value.s) else None
  }

  function AsArray(v: Option<Value>): Option<seq<Value>> {
    if v.Some? && v.value.Array? then Some(v.value.items) else None
  }

  lemma {:induction false} LookupInsert(fields: seq<Field>, key: string, value: Value, other: string)
    ensures Lookup(Insert(fields, key, value), other) == if other == key then Some(value) else Lookup(fields, other)
  {
    if fields != [] {
      Trichotomy(key, fields[0].key);
      if !Less(key, fields[0].key) && fields[0].key != key {
        LookupInsert(fields[1..], key, value, other);
      }
    }
  }

  lemma {:induction false} LookupRemove(fields: seq<Field>, key: string, other: string)
    requires KeysSorted(fields)
    ensures Lookup(Remove(fields, key), other) == if other == key then None else Lookup(fields, other)
    ensures KeysSorted(Remove(fields, key)) && forall f :: f in Remove(fields, key) ==> f in fields
  {
    if fields != [] {
      if fields[0].key == key {
        AbsentAbove(fields[1..], key);
      } else {
        LookupRemove(fields[1..], key, other);
        var rest := Remove(fields[1..], key);
        forall j | 0 <= j < |rest| ensures Less(fields[0].key, rest[j].key) {
          assert rest[j] in fields[1..];
        }
      }
    }
  }

  lemma {:induction false} AbsentAbove(fields: seq<Field>, key: string)
    requires forall i :: 0 <= i < |fields| ==> Less(key, fields[i].key)
    ensures Lookup(fields, key) == None
  {
    if fields != [] {
      Trichotomy(key, fields[0].key);
      AbsentAbove(fields[1..], key);
    }
  }

  /** Putting back what was removed restores the object. */
  lemma {:induction false} InsertRemoved(fields: seq<Field>, key: string, value: Value)
    requires KeysSorted(fields) && Lookup(fields, key) == Some(value)
    ensures Insert(Remove(fields, key), key, value) == fields
  {
    if fields[0].key == key {
      if |fields| > 1 { assert Less(key, fields[1].key); }
    } else {
      PresentAbove(fields, key);
      Trichotomy(key, fields[0].key);
      InsertRemoved(fields[1..], key, value);
    }
  }

  lemma {:induction false} PresentAbove(fields: seq<Field>, key: string)
    requires KeysSorted(fields) && Lookup(fields, key).Some?
    ensures fields != [] && (fields[0].key == key || Less(fields[0].key, key))
  {
    if fields[0].key != key {
      PresentAbove(fields[1..], key);
      assert Less(fields[0].key, fields[1].key);
      if fields[1].key != key {
        Transitive(fields[0].key, fields[1].key, key);
      }
    }
  }

  lemma {:induction false} InsertSame(fields: seq<Field>, key: string, value: Value)
    requires KeysSorted(fields) && Lookup(fields, key) == Some(value)
    ensures Insert(fields, key, value) == fields
  {
    PresentAbove(fields, key);
    Trichotomy(key, fields[0].key);
    if fields[0].key != key {
      InsertSame(fields[1..], key, value);
    }
  }

  /** Replacing a value twice is replacing it once. */
  lemma {:induction false} InsertTwice(fields: seq<Field>, key: string, v: Value, w: Value)
    ensures Insert(Insert(fields, key, v), key, w) == Insert(fields, key, w)
  {
    Trichotomy(key, key);
    if fields != [] {
      Trichotomy(key, fields[0].key);
      if !Less(key, fields[0].key) && fields[0].key != key {
        InsertTwice(fields[1..], key, v, w);
      }
    }
  }

  lemma {:induction false} InsertKeepsSorted(fields: seq<Field>, key: string, value: Value)
    requires KeysSorted(fields)
    ensures KeysSorted(Insert(fields, key, value))
    ensures forall f :: f in Insert(fields, key, value) ==> f in fields || f.key == key
  {
    if fields != [] {
      Trichotomy(key, fields[0].key);
      if Less(key, fields[0].key) {
        forall j | 0 < j < |fields| ensures Less(key, fields[j].key) {
          Transitive(key, fields[0].key, fields[j].key);
        }
      } else if fields[0].key != key {
        InsertKeepsSorted(fields[1..], key, value);
        var rest := Insert(fields[1..], key, value);
        forall j | 0 <= j < |rest| ensures Less(fields[0].key, rest[j].key) {
          assert rest[j] in rest;
          if rest[j] in fields[1..] {
            var k :| 0 <= k < |fields[1..]| && fields[1..][k] == rest[j];
            assert fields[k + 1] == rest[j];
          }
        }
      }
    }
  }
}
