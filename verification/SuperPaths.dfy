/** Paths that climb out of modules with `super::` (src/facts/type_identity.rs, src/facts/graph.rs). */
module SuperPaths {
  import opened Order
  import Patterns

  const SUPER: string := "super::"

  /** A path with its leading `super::` steps taken from `base`; none when it climbs too far. */
  function Climb(base: seq<string>, path: string): Option<string>
    decreases |path|
  {
    if !(SUPER <= path) then Some(Patterns.Join(base + [path]))
    else if base == [] then None
    else Climb(base[..|base| - 1], path[|SUPER|..])
  }

  function Supers(k: nat): string {
    if k == 0 then "" else SUPER + Supers(k - 1)
  }

  /** Climbing takes exactly the leading `super::` steps, all of them, and fails exactly when there are
      more of them than modules to leave. */
  lemma {:induction false} ClimbMeaning(base: seq<string>, k: nat, rest: string)
    requires !(SUPER <= rest)
    ensures Climb(base, Supers(k) + rest) ==
            if k <= |base| then Some(Patterns.Join(base[..|base| - k] + [rest])) else None
  {
    var path := Supers(k) + rest;
    if k == 0 {
      assert path == rest && base[..|base|] == base;
    } else {
      var shorter := Supers(k - 1) + rest;
      assert path == SUPER + shorter;
      assert SUPER <= path && path[|SUPER|..] == shorter;
      if base != [] {
        ClimbMeaning(base[..|base| - 1], k - 1, rest);
        if k <= |base| { assert base[..|base| - 1][..|base| - k] == base[..|base| - k]; }
      }
    }
  }

  method ClimbPath(base: seq<string>, path: string) returns (climbed: Option<string>)
    ensures climbed == Climb(base, path)
  {
    var modules, remainder := base, path;
    while SUPER <= remainder
      invariant Climb(modules, remainder) == Climb(base, path)
      decreases |remainder|
    {
      if modules == [] {
        return None;
      }
      modules, remainder := modules[..|modules| - 1], remainder[|SUPER|..];
    }
    return Some(Patterns.Join(modules + [remainder]));
  }
}
