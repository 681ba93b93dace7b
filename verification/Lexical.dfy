/** Lexical scopes of nominal types within one source file (rust_helpers/src/lexical.rs). */
module Lexical {
  import opened Order

  datatype UseTree =
    | Path(segment: string, tree: UseTree)
    | Name(name: string)
    | Rename(name: string, rename: string)
    | Glob
    | Group(items: seq<UseTree>)

  datatype Item =
    | Struct(name: string)
    | Enum(name: string)
    | TypeAlias(name: string)
    | Trait(name: string)
    | Union(name: string)
    | Mod(name: string)
    | Use(tree: UseTree)
    | Other

  datatype Binding = Binding(name: string, nominal: bool)

  // ----- What items bind -----

  function Imported(tree: UseTree): seq<Binding> {
    match tree
    case Path(_, inner) => Imported(inner)
    case Name(name) => [Binding(name, false)]
    case Rename(_, rename) => [Binding(rename, false)]
    case Glob => []
    case Group(items) => ImportedAll(items)
  }

  function ImportedAll(trees: seq<UseTree>): seq<Binding> {
    if trees == [] then [] else ImportedAll(trees[..|trees| - 1]) + Imported(trees[|trees| - 1])
  }

  predicate HasGlob(tree: UseTree) {
    match tree
    case Path(_, inner) => HasGlob(inner)
    case Glob => true
    case Group(items) => AnyGlob(items)
    case _ => false
  }

  predicate AnyGlob(trees: seq<UseTree>) {
    trees != [] && (AnyGlob(trees[..|trees| - 1]) || HasGlob(trees[|trees| - 1]))
  }

  function ItemBindings(item: Item): seq<Binding> {
    match item
    case Struct(name) => [Binding(name, true)]
    case Enum(name) => [Binding(name, true)]
    case Use(tree) => Imported(tree)
    case Other => []
    case _ => [Binding(item.name, false)]
  }

  predicate ItemGlob(item: Item) {
    item.Use? && HasGlob(item.tree)
  }

  function Bindings(items: seq<Item>): seq<Binding> {
    if items == [] then [] else Bindings(items[..|items| - 1]) + ItemBindings(items[|items| - 1])
  }

  predicate Globs(items: seq<Item>) {
    exists item :: item in items && ItemGlob(item)
  }

  // ----- What a frame then knows -----

  type Known = map<string, Option<string>>

  ghost function Times(bound: seq<Binding>, name: string): nat {
    if bound == [] then 0
    else Times(bound[..|bound| - 1], name) + if bound[|bound| - 1].name == name then 1 else 0
  }

  ghost function Names(bound: seq<Binding>): set<string> {
    if bound == [] then {} else Names(bound[..|bound| - 1]) + {bound[|bound| - 1].name}
  }

  /** A name has an owner when exactly one binding is for it and that one declares a struct or enum. */
  ghost function OwnerOf(bound: seq<Binding>, prefix: string, name: string): Option<string> {
    if Times(bound, name) == 1 && Binding(name, true) in bound then Some(prefix + "::" + name) else None
  }

  ghost function Declared(bound: seq<Binding>, prefix: string): Known {
    map name | name in Names(bound) :: OwnerOf(bound, prefix, name)
  }

  function Bind(known: Known, name: string, owner: Option<string>): Known {
    known[name := if name in known then None else owner]
  }

  lemma {:induction false} TimesPositive(bound: seq<Binding>, name: string)
    ensures Times(bound, name) > 0 <==> name in Names(bound)
    ensures Times(bound, name) > 0 <==> Binding(name, true) in bound || Binding(name, false) in bound
  {
    if bound != [] {
      var front, last := bound[..|bound| - 1], bound[|bound| - 1];
      TimesPositive(front, name);
      assert bound == front + [last];
    }
  }

  lemma OneMoreBinding(bound: seq<Binding>, b: Binding, name: string)
    ensures Times(bound + [b], name) == Times(bound, name) + if b.name == name then 1 else 0
    ensures Names(bound + [b]) == Names(bound) + {b.name}
  {
    assert (bound + [b])[..|bound|] == bound;
  }

  lemma OwnerMore(bound: seq<Binding>, b: Binding, prefix: string, name: string)
    ensures OwnerOf(bound + [b], prefix, name) ==
            if b.name != name then OwnerOf(bound, prefix, name)
            else if name in Names(bound) || !b.nominal then None
            else Some(prefix + "::" + name)
  {
    OneMoreBinding(bound, b, name);
    TimesPositive(bound, name);
    assert Binding(name, true) in bound + [b] <==> Binding(name, true) in bound || b == Binding(name, true);
  }

  /** Binding one more name at a time arrives at what all bindings together declare. */
  lemma DeclaredMore(bound: seq<Binding>, b: Binding, prefix: string)
    ensures Declared(bound + [b], prefix) ==
            Bind(Declared(bound, prefix), b.name, if b.nominal then Some(prefix + "::" + b.name) else None)
  {
    var before, after := Declared(bound, prefix), Declared(bound + [b], prefix);
    OneMoreBinding(bound, b, b.name);
    forall name | name in after
      ensures after[name] == if b.name != name then OwnerOf(bound, prefix, name)
                             else if name in before || !b.nominal then None else Some(prefix + "::" + name)
    {
      OwnerMore(bound, b, prefix, name);
    }
  }

  // ----- Frames -----

  datatype FrameValue = FrameValue(id: string, isModule: bool, known: Known, glob: bool)

  class Frame {
    const id: string
    const isModule: bool
    const prefix: string
    var known: Known
    var glob: bool
    ghost var bound: seq<Binding>

    ghost predicate Valid()
      reads this
    {
      known == Declared(bound, prefix)
    }

    function Value(): FrameValue
      reads this
    {
      FrameValue(id, isModule, known, glob)
    }

    /** Structs and enums are owned by the module of a module frame, else by the frame itself. */
    constructor (id: string, isModule: bool, moduleKey: string)
      ensures this.id == id && this.isModule == isModule && prefix == (if isModule then moduleKey else id)
      ensures Valid() && bound == [] && !glob
    {
      this.id, this.isModule, prefix := id, isModule, if isModule then moduleKey else id;
      known, glob, bound := map[], false, [];
    }

    method BindName(name: string, nominal: bool)
      requires Valid()
      modifies this
      ensures Valid() && bound == old(bound) + [Binding(name, nominal)] && glob == old(glob)
    {
      DeclaredMore(bound, Binding(name, nominal), prefix);
      known := Bind(known, name, if nominal then Some(prefix + "::" + name) else None);
      bound := bound + [Binding(name, nominal)];
    }

    method Imports(tree: UseTree)
      requires Valid()
      modifies this
      ensures Valid() && bound == old(bound) + Imported(tree) && glob == (old(glob) || HasGlob(tree))
      decreases tree
    {
      match tree
      case Path(_, inner) => Imports(inner);
      case Name(name) => BindName(name, false);
      case Rename(_, rename) => BindName(rename, false);
      case Glob => glob := true;
      case Group(items) =>
        for i := 0 to |items|
          invariant Valid() && bound == old(bound) + ImportedAll(items[..i])
          invariant glob == (old(glob) || AnyGlob(items[..i]))
        {
          ghost var before := bound;
          Imports(items[i]);
          assert items[..i + 1][..i] == items[..i];
          assert before + Imported(items[i]) == old(bound) + (ImportedAll(items[..i]) + Imported(items[i]));
        }
        assert items[..|items|] == items;
    }

    method BindItem(item: Item)
      requires Valid()
      modifies this
      ensures Valid() && bound == old(bound) + ItemBindings(item) && glob == (old(glob) || ItemGlob(item))
    {
      match item
      case Struct(name) => BindName(name, true);
      case Enum(name) => BindName(name, true);
      case Use(tree) => Imports(tree);
      case Other =>
      case _ => BindName(item.name, false);
    }

    method BindItems(items: seq<Item>)
      requires Valid()
      modifies this
      ensures Valid() && bound == old(bound) + Bindings(items) && glob == (old(glob) || Globs(items))
    {
      for i := 0 to |items|
        invariant Valid() && bound == old(bound) + Bindings(items[..i])
        invariant glob == (old(glob) || Globs(items[..i]))
      {
        ghost var before := bound;
        BindItem(items[i]);
        assert items[..i + 1][..i] == items[..i] && items[..i + 1] == items[..i] + [items[i]];
        assert before + ItemBindings(items[i]) == old(bound) + (Bindings(items[..i]) + ItemBindings(items[i]));
      }
      assert items[..|items|] == items;
    }
  }
}
