/** What a scope knows of the names its items mention, in terms of the items alone (rust_helpers/src/lexical.rs). */
module LexicalMeaning {
  import opened Order
  import opened Lexical
  import opened LexicalScopes

  /** The leaf occurs somewhere in the use tree. */
  ghost predicate Within(leaf: UseTree, tree: UseTree) {
    || leaf == tree
    || match tree
       case Path(_, inner) => Within(leaf, inner)
       case Group(items) => exists item :: item in items && Within(leaf, item)
       case _ => false
  }

  /** A use tree makes a name known by importing it under its own name or renaming something to it. */
  ghost predicate Imports(tree: UseTree, name: string) {
    Within(Name(name), tree) || exists original :: Within(Rename(original, name), tree)
  }

  predicate DeclaresType(item: Item, name: string) {
    item == Struct(name) || item == Enum(name)
  }

  ghost predicate Mentions(item: Item, name: string) {
    || DeclaresType(item, name)
    || item == TypeAlias(name) || item == Trait(name) || item == Union(name) || item == Mod(name)
    || (item.Use? && Imports(item.tree, name))
  }

  /** The only item that mentions the name declares a struct or an enum of that name. */
  ghost predicate OnlyDeclares(items: seq<Item>, i: int, name: string) {
    && 0 <= i < |items| && DeclaresType(items[i], name)
    && forall j :: 0 <= j < |items| && Mentions(items[j], name) ==> j == i
  }

  // ----- Use trees -----

  lemma ImportsPath(segment: string, inner: UseTree, name: string)
    ensures Imports(Path(segment, inner), name) <==> Imports(inner, name)
  {
  }

  ghost predicate ImportsSome(trees: seq<UseTree>, name: string) {
    exists tree :: tree in trees && Imports(tree, name)
  }

  lemma ImportsGroup(items: seq<UseTree>, name: string)
    ensures Imports(Group(items), name) <==> ImportsSome(items, name)
  {
  }

  lemma TimesConcat(a: seq<Binding>, b: seq<Binding>, name: string)
    ensures Times(a + b, name) == Times(a, name) + Times(b, name)
    decreases |b|
  {
    if b == [] {
      assert a + b == a;
    } else {
      assert (a + b)[..|a + b| - 1] == a + b[..|b| - 1];
      TimesConcat(a, b[..|b| - 1], name);
    }
  }

  lemma {:induction false} ImportedMeans(tree: UseTree, name: string)
    ensures Times(Imported(tree), name) > 0 <==> Imports(tree, name)
    ensures forall b :: b in Imported(tree) ==> !b.nominal
    decreases tree, 1
  {
    match tree
    case Path(segment, inner) =>
      ImportedMeans(inner, name);
      ImportsPath(segment, inner, name);
    case Group(items) =>
      ImportedAllMeans(items, name);
      ImportsGroup(items, name);
    case Name(n) => assert Imported(tree)[..0] == [];
    case Rename(n, r) => assert Imported(tree)[..0] == [];
    case Glob =>
  }

  lemma {:induction false} ImportedAllMeans(trees: seq<UseTree>, name: string)
    ensures Times(ImportedAll(trees), name) > 0 <==> ImportsSome(trees, name)
    ensures forall b :: b in ImportedAll(trees) ==> !b.nominal
    decreases trees, 0
  {
    if trees != [] {
      var front, last := trees[..|trees| - 1], trees[|trees| - 1];
      assert trees == front + [last];
      ImportedAllMeans(front, name);
      ImportedMeans(last, name);
      TimesConcat(ImportedAll(front), Imported(last), name);
    }
  }

  lemma {:induction false} GlobMeans(tree: UseTree)
    ensures HasGlob(tree) <==> Within(Glob, tree)
    decreases tree, 1
  {
    match tree
    case Path(_, inner) => GlobMeans(inner);
    case Group(items) => AnyGlobMeans(items);
    case _ =>
  }

  lemma {:induction false} AnyGlobMeans(trees: seq<UseTree>)
    ensures AnyGlob(trees) <==> exists tree :: tree in trees && Within(Glob, tree)
    decreases trees, 0
  {
    if trees != [] {
      var front, last := trees[..|trees| - 1], trees[|trees| - 1];
      assert trees == front + [last];
      AnyGlobMeans(front);
      GlobMeans(last);
    }
  }

  // ----- Items -----

  lemma ItemMeans(item: Item, name: string)
    ensures Times(ItemBindings(item), name) > 0 <==> Mentions(item, name)
    ensures Binding(name, true) in ItemBindings(item) <==> DeclaresType(item, name)
    ensures DeclaresType(item, name) ==> Times(ItemBindings(item), name) == 1
  {
    if item.Use? {
      ImportedMeans(item.tree, name);
    } else if !item.Other? {
      assert ItemBindings(item)[..0] == [];
    }
  }

  ghost predicate OnceAsType(bound: seq<Binding>, name: string) {
    Times(bound, name) == 1 && Binding(name, true) in bound
  }

  ghost predicate SomeMentions(items: seq<Item>, name: string) {
    exists item :: item in items && Mentions(item, name)
  }

  ghost predicate DeclaredAlone(items: seq<Item>, name: string) {
    exists i :: OnlyDeclares(items, i, name)
  }

  lemma {:induction false} BindingsMean(items: seq<Item>, name: string)
    ensures Times(Bindings(items), name) > 0 <==> SomeMentions(items, name)
    ensures OnceAsType(Bindings(items), name) <==> DeclaredAlone(items, name)
  {
    if items != [] {
      var front, last := items[..|items| - 1], items[|items| - 1];
      assert items == front + [last];
      BindingsMean(front, name);
      ItemMeans(last, name);
      TimesConcat(Bindings(front), ItemBindings(last), name);
      TimesPositive(Bindings(front), name);
      TimesPositive(ItemBindings(last), name);
      LastDeclares(front, last, name);
    }
  }

  lemma LastDeclares(front: seq<Item>, last: Item, name: string)
    ensures DeclaredAlone(front + [last], name) <==>
            if Mentions(last, name) then DeclaresType(last, name) && !SomeMentions(front, name)
            else DeclaredAlone(front, name)
  {
    var items := front + [last];
    assert forall j :: 0 <= j < |front| ==> items[j] == front[j];
    assert items[|front|] == last;
    if i :| OnlyDeclares(items, i, name) {
      assert Mentions(items[i], name);
      if !Mentions(last, name) { assert OnlyDeclares(front, i, name); }
    }
    if i :| OnlyDeclares(front, i, name) {
      assert Mentions(front[i], name) && front[i] in front;
      if !Mentions(last, name) { assert OnlyDeclares(items, i, name); }
    }
    if Mentions(last, name) && DeclaresType(last, name) && !SomeMentions(front, name) {
      forall j | 0 <= j < |front| ensures !Mentions(items[j], name) { assert front[j] in front; }
      assert OnlyDeclares(items, |front|, name);
    }
  }

  /** The ids under which declarations of a scope are known: those of its module, or of the block itself. */
  function Prefix(kind: string, position: string, moduleKey: string): string {
    if kind == "module" then moduleKey else moduleKey + "::@" + kind + "_" + position
  }

  /** Right after a scope is entered, a name its items mention has an owner exactly when the only item that does
      declares a struct or an enum, and is blocked otherwise. */
  lemma MentionedOwner(s: State, kind: string, position: string, moduleKey: string, items: seq<Item>, name: string)
    requires SomeMentions(items, name)
    ensures var t := Apply(s, Op.Enter(kind, position, moduleKey, items));
            && OwnerIn(t.frames, name) ==
               (if DeclaredAlone(items, name) then Some(Prefix(kind, position, moduleKey) + "::" + name) else None)
            && BlockedIn(t.frames, name) == !DeclaredAlone(items, name)
  {
    BindingsMean(items, name);
    OwnerAfterEnter(s, kind, position, moduleKey, items, name);
  }

  ghost predicate ImportsAll(items: seq<Item>) {
    exists item :: item in items && item.Use? && Within(Glob, item.tree)
  }

  lemma GlobsMean(items: seq<Item>)
    ensures Globs(items) <==> ImportsAll(items)
  {
    forall item | item in items && item.Use? ensures HasGlob(item.tree) <==> Within(Glob, item.tree) {
      GlobMeans(item.tree);
    }
  }

  /** A name no item mentions is looked for further out, but not beyond a module or a glob import; behind a glob
      import it is blocked, since the glob may stand for it. */
  lemma UnmentionedOwner(s: State, kind: string, position: string, moduleKey: string, items: seq<Item>, name: string)
    requires !SomeMentions(items, name)
    ensures var t := Apply(s, Op.Enter(kind, position, moduleKey, items));
            && OwnerIn(t.frames, name) ==
               (if kind == "module" || ImportsAll(items) then None else OwnerIn(s.frames, name))
            && BlockedIn(t.frames, name) ==
               (ImportsAll(items) || (kind != "module" && BlockedIn(s.frames, name)))
  {
    BindingsMean(items, name);
    TimesPositive(Bindings(items), name);
    GlobsMean(items);
    var t := Apply(s, Op.Enter(kind, position, moduleKey, items));
    assert t.frames[..|t.frames| - 1] == s.frames;
  }

  /** Type parameters hide every outer meaning of their names and touch no other name. */
  lemma GenericsHide(s: State, parameters: seq<string>, name: string)
    requires s.frames != []
    ensures var t := Apply(s, Op.Generics(parameters));
            if name in parameters then OwnerIn(t.frames, name) == None && BlockedIn(t.frames, name)
            else OwnerIn(t.frames, name) == OwnerIn(s.frames, name) && BlockedIn(t.frames, name) == BlockedIn(s.frames, name)
  {
    var t := Apply(s, Op.Generics(parameters));
    HiddenMeans(s.frames[|s.frames| - 1].known, parameters, name);
    assert t.frames[..|t.frames| - 1] == s.frames[..|s.frames| - 1];
  }
}
