/** The stack of lexical scopes: entering, leaving, and looking a type name up
    (rust_helpers/src/lexical.rs). */
module LexicalScopes {
  import opened Order
  import opened Lexical
  import Permutations

  datatype ScopeRecord = ScopeRecord(id: string, parentId: Option<string>, kind: string, moduleKey: string)

  /** The frames from the outermost in, and the records of every scope entered so far. */
  datatype State = State(frames: seq<FrameValue>, records: seq<ScopeRecord>)

  /** `position` is the line and column of the scope's span, joined by an underscore. */
  datatype Op =
    | Enter(kind: string, position: string, moduleKey: string, items: seq<Item>)
    | Generics(parameters: seq<string>)
    | Leave

  function ScopeId(kind: string, position: string, moduleKey: string): string {
    moduleKey + "::@" + kind + "_" + position
  }

  ghost function FrameFor(kind: string, position: string, moduleKey: string, items: seq<Item>): FrameValue {
    var id, isModule := ScopeId(kind, position, moduleKey), kind == "module";
    FrameValue(id, isModule, Declared(Bindings(items), if isModule then moduleKey else id), Globs(items))
  }

  function TopId(frames: seq<FrameValue>): Option<string> {
    if frames == [] then None else Some(frames[|frames| - 1].id)
  }

  function Hidden(known: Known, parameters: seq<string>): Known {
    map name | name in known.Keys + (set p | p in parameters) ::
      if name in parameters then None else if name in known then known[name] else None
  }

  lemma HiddenMeans(known: Known, parameters: seq<string>, name: string)
    ensures name in Hidden(known, parameters) <==> name in known || name in parameters
    ensures name in parameters ==> Hidden(known, parameters)[name] == None
    ensures name in known && name !in parameters ==> Hidden(known, parameters)[name] == known[name]
  {
  }

  /** Within a module the scopes of one kind at different positions have different ids. */
  lemma ScopesApart(kind: string, position: string, position': string, moduleKey: string)
    requires ScopeId(kind, position, moduleKey) == ScopeId(kind, position', moduleKey)
    ensures position == position'
  {
    var prefix := moduleKey + "::@" + kind + "_";
    assert ScopeId(kind, position, moduleKey)[|prefix|..] == position;
    assert ScopeId(kind, position', moduleKey)[|prefix|..] == position';
  }

  /** What each operation does to the stack and the records. */
  ghost function Apply(s: State, op: Op): State {
    match op
    case Enter(kind, position, moduleKey, items) =>
      State(s.frames + [FrameFor(kind, position, moduleKey, items)],
            s.records + [ScopeRecord(ScopeId(kind, position, moduleKey), TopId(s.frames), kind, moduleKey)])
    case Generics(parameters) =>
      if s.frames == [] then s
      else
        var top := s.frames[|s.frames| - 1];
        s.(frames := s.frames[..|s.frames| - 1] + [top.(known := Hidden(top.known, parameters))])
    case Leave => if s.frames == [] then s else s.(frames := s.frames[..|s.frames| - 1])
  }

  // ----- Lookup -----

  function OwnerIn(frames: seq<FrameValue>, name: string): Option<string> {
    if frames == [] then None
    else
      var top := frames[|frames| - 1];
      if name in top.known then top.known[name]
      else if top.isModule || top.glob then None
      else OwnerIn(frames[..|frames| - 1], name)
  }

  predicate BlockedIn(frames: seq<FrameValue>, name: string) {
    if frames == [] then false
    else
      var top := frames[|frames| - 1];
      if name in top.known then top.known[name].None?
      else if top.glob then true
      else if top.isModule then false
      else BlockedIn(frames[..|frames| - 1], name)
  }

  /** Lookup gets past the frames from `i` on: none binds the name, is a module or has a glob import. */
  ghost predicate Clear(frames: seq<FrameValue>, i: int, name: string) {
    forall j :: 0 <= i <= j < |frames| ==> name !in frames[j].known && !frames[j].isModule && !frames[j].glob
  }

  ghost predicate Reached(frames: seq<FrameValue>, i: int, name: string) {
    0 <= i < |frames| && Clear(frames, i + 1, name)
  }

  /** A name has an owner exactly when the innermost frame that binds it gives it one and no module or
      glob import stands between; it is blocked exactly when that frame gives it none, or a glob import is
      met first. */
  lemma {:induction false} LookupMeaning(frames: seq<FrameValue>, name: string)
    ensures forall owner :: OwnerIn(frames, name) == Some(owner) <==>
              exists i :: Reached(frames, i, name) && name in frames[i].known && frames[i].known[name] == Some(owner)
    ensures BlockedIn(frames, name) <==>
              exists i :: Reached(frames, i, name)
                && if name in frames[i].known then frames[i].known[name].None? else frames[i].glob
  {
    if frames != [] {
      var n := |frames| - 1;
      var front := frames[..n];
      assert Reached(frames, n, name);
      if name in frames[n].known || frames[n].isModule || frames[n].glob {
        assert forall i :: Reached(frames, i, name) ==> i == n;
      } else {
        LookupMeaning(front, name);
        forall i ensures i != n ==> (Reached(frames, i, name) <==> Reached(front, i, name)) {
          if Reached(front, i, name) {
            assert forall j :: i + 1 <= j < |frames| ==> j == n || frames[j] == front[j];
          }
        }
      }
    }
  }

  /** A name with an owner is never blocked. */
  lemma {:induction false} OwnedNotBlocked(frames: seq<FrameValue>, name: string)
    ensures OwnerIn(frames, name).Some? ==> !BlockedIn(frames, name)
  {
    if frames != [] { OwnedNotBlocked(frames[..|frames| - 1], name); }
  }

  /** What lies outside a module or glob frame never matters. */
  lemma {:induction false} LookupStops(outer: seq<FrameValue>, stop: FrameValue, inner: seq<FrameValue>, name: string)
    requires stop.isModule || stop.glob
    ensures OwnerIn(outer + [stop] + inner, name) == OwnerIn([stop] + inner, name)
    ensures BlockedIn(outer + [stop] + inner, name) == BlockedIn([stop] + inner, name)
  {
    var all, local := outer + [stop] + inner, [stop] + inner;
    assert all[|all| - 1] == local[|local| - 1];
    if inner != [] {
      var front := inner[..|inner| - 1];
      LookupStops(outer, stop, front, name);
      assert all[..|all| - 1] == outer + [stop] + front;
      assert local[..|local| - 1] == [stop] + front;
    }
  }

  /** Right after a scope is entered, a name its items bind has an owner exactly when one item alone binds
      it and declares a struct or enum; the owner is the name declarations get in that scope. */
  lemma OwnerAfterEnter(s: State, kind: string, position: string, moduleKey: string, items: seq<Item>, name: string)
    requires Times(Bindings(items), name) > 0
    ensures var t := Apply(s, Enter(kind, position, moduleKey, items));
            var declares := Times(Bindings(items), name) == 1 && Binding(name, true) in Bindings(items);
            && OwnerIn(t.frames, name) == (if declares then Some(DeclarationName(t.frames, moduleKey, name)) else None)
            && BlockedIn(t.frames, name) == !declares
  {
    TimesPositive(Bindings(items), name);
  }

  function DeclarationName(frames: seq<FrameValue>, moduleKey: string, name: string): string {
    if frames != [] && !frames[|frames| - 1].isModule then frames[|frames| - 1].id + "::" + name
    else moduleKey + "::" + name
  }

  // ----- Order and nesting of items -----

  lemma {:induction false} BindingsConcat(a: seq<Item>, b: seq<Item>)
    ensures Bindings(a + b) == Bindings(a) + Bindings(b)
  {
    if b == [] {
      assert a + b == a;
    } else {
      BindingsConcat(a, b[..|b| - 1]);
      assert (a + b)[..|a + b| - 1] == a + b[..|b| - 1];
      Permutations.Regroup(Bindings(a), Bindings(b[..|b| - 1]), ItemBindings(b[|b| - 1]));
    }
  }

  lemma {:induction false} BindingsReordered(xs: seq<Item>, ys: seq<Item>)
    requires multiset(xs) == multiset(ys)
    ensures multiset(Bindings(xs)) == multiset(Bindings(ys))
  {
    if xs == [] {
      assert |multiset(ys)| == 0;
    } else {
      var i := Permutations.TakeOut(xs, ys);
      BindingsReordered(xs[..|xs| - 1], ys[..i] + ys[i + 1..]);
      BindingsConcat(ys[..i], ys[i + 1..]);
      BindingsConcat(ys[..i] + [ys[i]], ys[i + 1..]);
      BindingsConcat(ys[..i], [ys[i]]);
      assert [ys[i]][..0] == [] && Bindings([ys[i]]) == ItemBindings(ys[i]);
    }
  }

  lemma {:induction false} TimesCount(bound: seq<Binding>, name: string)
    ensures Times(bound, name) == multiset(bound)[Binding(name, true)] + multiset(bound)[Binding(name, false)]
  {
    if bound != [] {
      TimesCount(bound[..|bound| - 1], name);
      assert bound == bound[..|bound| - 1] + [bound[|bound| - 1]];
    }
  }

  lemma DeclaredReordered(xs: seq<Binding>, ys: seq<Binding>, prefix: string)
    requires multiset(xs) == multiset(ys)
    ensures Declared(xs, prefix) == Declared(ys, prefix)
  {
    forall name
      ensures name in Names(xs) <==> name in Names(ys)
      ensures OwnerOf(xs, prefix, name) == OwnerOf(ys, prefix, name)
    {
      TimesCount(xs, name);
      TimesCount(ys, name);
      TimesPositive(xs, name);
      TimesPositive(ys, name);
      Permutations.SameMembers(xs, ys);
    }
  }

  /** The order of its items never changes what a scope knows. */
  lemma ItemOrderIrrelevant(s: State, kind: string, position: string, moduleKey: string, xs: seq<Item>, ys: seq<Item>)
    requires multiset(xs) == multiset(ys)
    ensures Apply(s, Enter(kind, position, moduleKey, xs)) == Apply(s, Enter(kind, position, moduleKey, ys))
  {
    BindingsReordered(xs, ys);
    var id := ScopeId(kind, position, moduleKey);
    DeclaredReordered(Bindings(xs), Bindings(ys), if kind == "module" then moduleKey else id);
    Permutations.SameMembers(xs, ys);
  }

  function Uses(trees: seq<UseTree>): seq<Item> {
    seq(|trees|, i requires 0 <= i < |trees| => Use(trees[i]))
  }

  lemma {:induction false} UsesApart(trees: seq<UseTree>)
    ensures ImportedAll(trees) == Bindings(Uses(trees))
    ensures AnyGlob(trees) <==> Globs(Uses(trees))
  {
    if trees != [] {
      var front, last := trees[..|trees| - 1], trees[|trees| - 1];
      UsesApart(front);
      var uses := Uses(trees);
      assert uses == Uses(front) + [Use(last)] && uses[..|uses| - 1] == Uses(front);
      assert ItemBindings(Use(last)) == Imported(last) && ItemGlob(Use(last)) == HasGlob(last);
    }
  }

  /** A grouped use item knows what its parts, as separate use items, would. */
  lemma GroupsFlatten(trees: seq<UseTree>)
    ensures Bindings([Use(Group(trees))]) == Bindings(Uses(trees))
    ensures Globs([Use(Group(trees))]) == Globs(Uses(trees))
  {
    UsesApart(trees);
    var item := Use(Group(trees));
    assert [item][..0] == [] && ItemBindings(item) == ImportedAll(trees);
    assert item in [item] && ItemGlob(item) == AnyGlob(trees);
  }

  // ----- Runs -----

  ghost function Run(s: State, ops: seq<Op>): State
    decreases |ops|
  {
    if ops == [] then s else Run(Apply(s, ops[0]), ops[1..])
  }

  /** Every scope entered is left, and nothing touches the scopes there were before. */
  ghost predicate Balanced(ops: seq<Op>, depth: nat)
    decreases |ops|
  {
    if ops == [] then depth == 0
    else
      match ops[0]
      case Enter(_, _, _, _) => Balanced(ops[1..], depth + 1)
      case Generics(_) => depth > 0 && Balanced(ops[1..], depth)
      case Leave => depth > 0 && Balanced(ops[1..], depth - 1)
  }

  lemma {:induction false} BalancedKeepsBase(base: seq<FrameValue>, s: State, ops: seq<Op>, depth: nat)
    requires Balanced(ops, depth) && |s.frames| == |base| + depth && base <= s.frames
    ensures Run(s, ops).frames == base
    decreases |ops|
  {
    if ops == [] {
      assert s.frames == base;
    } else {
      var t := Apply(s, ops[0]);
      match ops[0]
      case Enter(_, _, _, _) => BalancedKeepsBase(base, t, ops[1..], depth + 1);
      case Generics(_) =>
        assert t.frames[..|base|] == base;
        BalancedKeepsBase(base, t, ops[1..], depth);
      case Leave =>
        assert t.frames[..|base|] == base;
        BalancedKeepsBase(base, t, ops[1..], depth - 1);
    }
  }

  /** Entering, doing anything balanced, and leaving restores every answer. */
  lemma LeavingRestores(s: State, ops: seq<Op>, name: string)
    requires Balanced(ops, 0)
    ensures Run(s, ops).frames == s.frames
    ensures OwnerIn(Run(s, ops).frames, name) == OwnerIn(s.frames, name)
    ensures BlockedIn(Run(s, ops).frames, name) == BlockedIn(s.frames, name)
  {
    BalancedKeepsBase(s.frames, s, ops, 0);
  }

  // ----- Records -----

  ghost predicate HasRecord(records: seq<ScopeRecord>, id: string) {
    exists j :: 0 <= j < |records| && records[j].id == id
  }

  /** Every open frame has a record, and every record's parent has an earlier one. */
  ghost predicate Rooted(s: State) {
    && (forall i :: 0 <= i < |s.frames| ==> HasRecord(s.records, s.frames[i].id))
    && forall k :: 0 <= k < |s.records| && s.records[k].parentId.Some? ==>
         HasRecord(s.records[..k], s.records[k].parentId.value)
  }

  lemma MoreRecords(records: seq<ScopeRecord>, r: ScopeRecord, id: string)
    requires HasRecord(records, id) || r.id == id
    ensures HasRecord(records + [r], id)
  {
    if HasRecord(records, id) {
      var j :| 0 <= j < |records| && records[j].id == id;
      assert (records + [r])[j] == records[j];
    } else {
      assert (records + [r])[|records|] == r;
    }
  }

  lemma ApplyKeepsRooted(s: State, op: Op)
    requires Rooted(s)
    ensures Rooted(Apply(s, op))
  {
    var t := Apply(s, op);
    match op
    case Enter(kind, position, moduleKey, items) =>
      var r := t.records[|s.records|];
      forall i | 0 <= i < |t.frames| ensures HasRecord(t.records, t.frames[i].id) {
        if i < |s.frames| { assert t.frames[i] == s.frames[i]; }
        MoreRecords(s.records, r, t.frames[i].id);
      }
      forall k | 0 <= k < |t.records| && t.records[k].parentId.Some?
        ensures HasRecord(t.records[..k], t.records[k].parentId.value)
      {
        if k < |s.records| {
          assert t.records[k] == s.records[k] && t.records[..k] == s.records[..k];
        } else {
          assert t.records[..k] == s.records;
          assert s.frames != [] && HasRecord(s.records, s.frames[|s.frames| - 1].id);
        }
      }
    case Generics(_) =>
      forall i | 0 <= i < |t.frames| ensures HasRecord(t.records, t.frames[i].id) {
        assert t.frames[i].id == s.frames[i].id;
      }
    case Leave =>
      forall i | 0 <= i < |t.frames| ensures HasRecord(t.records, t.frames[i].id) {
        assert t.frames[i] == s.frames[i];
      }
  }

  /** Whatever is entered and left, every scope record's parent is an earlier record. */
  lemma {:induction false} ParentsComeFirst(s: State, ops: seq<Op>)
    requires Rooted(s)
    ensures Rooted(Run(s, ops))
    decreases |ops|
  {
    if ops != [] {
      ApplyKeepsRooted(s, ops[0]);
      ParentsComeFirst(Apply(s, ops[0]), ops[1..]);
    }
  }

  // ----- The object -----

  method NewFrame(kind: string, position: string, moduleKey: string, items: seq<Item>) returns (frame: Frame)
    ensures fresh(frame) && frame.Value() == FrameFor(kind, position, moduleKey, items)
  {
    frame := new Frame(ScopeId(kind, position, moduleKey), kind == "module", moduleKey);
    frame.BindItems(items);
    assert frame.bound == Bindings(items);
  }

  class Scopes {
    var records: seq<ScopeRecord>
    var frames: seq<Frame>

    ghost predicate Valid()
      reads this
    {
      forall i, j :: 0 <= i < j < |frames| ==> frames[i] != frames[j]
    }

    function Values(upTo: nat): seq<FrameValue>
      requires upTo <= |frames|
      reads this, frames
    {
      seq(upTo, i requires 0 <= i < upTo <= |frames| reads this, frames => frames[i].Value())
    }

    ghost function Abstract(): State
      reads this, frames
    {
      State(Values(|frames|), records)
    }

    constructor ()
      ensures Valid() && Abstract() == State([], []) && frames == []
    {
      records, frames := [], [];
    }

    method Enter(kind: string, position: string, moduleKey: string, items: seq<Item>)
      requires Valid()
      modifies this
      ensures Valid() && Abstract() == Apply(old(Abstract()), Op.Enter(kind, position, moduleKey, items))
    {
      var id := ScopeId(kind, position, moduleKey);
      var parent := if frames == [] then None else Some(frames[|frames| - 1].id);
      var frame := NewFrame(kind, position, moduleKey, items);
      ghost var was := Values(|frames|);
      assert was == old(Abstract().frames);
      records := records + [ScopeRecord(id, parent, kind, moduleKey)];
      frames := frames + [frame];
      assert Values(|frames|) == was + [frame.Value()];
    }

    method Generics(parameters: seq<string>)
      requires Valid()
      modifies if frames == [] then {} else {frames[|frames| - 1]}
      ensures Valid() && Abstract() == Apply(old(Abstract()), Op.Generics(parameters))
    {
      if frames != [] {
        var top := frames[|frames| - 1];
        for i := 0 to |parameters|
          invariant top.known == Hidden(old(top.known), parameters[..i])
          invariant top.glob == old(top.glob)
        {
          top.known := top.known[parameters[i] := None];
        }
        assert parameters[..|parameters|] == parameters;
        ghost var was := old(Abstract().frames);
        assert Abstract().frames == was[..|frames| - 1] + [was[|frames| - 1].(known := top.known)];
      }
    }

    method Leave()
      requires Valid()
      modifies this
      ensures Valid() && Abstract() == Apply(old(Abstract()), Op.Leave)
    {
      if frames != [] {
        frames := frames[..|frames| - 1];
        assert Abstract().frames == old(Abstract().frames)[..|frames|];
      }
    }

    method Owner(name: string) returns (owner: Option<string>)
      requires Valid()
      ensures owner == OwnerIn(Abstract().frames, name)
    {
      var i := |frames|;
      while i > 0
        invariant 0 <= i <= |frames|
        invariant OwnerIn(Values(i), name) == OwnerIn(Abstract().frames, name)
      {
        assert Values(i)[..i - 1] == Values(i - 1);
        i := i - 1;
        if name in frames[i].known {
          return frames[i].known[name];
        }
        if frames[i].isModule || frames[i].glob {
          break;
        }
      }
      return None;
    }

    method Blocked(name: string) returns (blocked: bool)
      requires Valid()
      ensures blocked == BlockedIn(Abstract().frames, name)
    {
      var i := |frames|;
      while i > 0
        invariant 0 <= i <= |frames|
        invariant BlockedIn(Values(i), name) == BlockedIn(Abstract().frames, name)
      {
        assert Values(i)[..i - 1] == Values(i - 1);
        i := i - 1;
        if name in frames[i].known {
          return frames[i].known[name].None?;
        }
        if frames[i].glob {
          return true;
        }
        if frames[i].isModule {
          break;
        }
      }
      return false;
    }
  }
}
