/** Which module a written path depends on (src/facts/graph.rs). */
module ModulePaths {
  import opened Order
  import opened Patterns
  import opened SuperPaths

  // ----- Normalising what was written -----

  predicate IsSpace(c: char) {
    c in {' ', '\t', '\n', '\r', '\U{000B}', '\U{000C}'}
  }

  function TrimStart(text: string): string {
    if text != "" && IsSpace(text[0]) then TrimStart(text[1..]) else text
  }

  function TrimEnd(text: string): string {
    if text != "" && IsSpace(text[|text| - 1]) then TrimEnd(text[..|text| - 1]) else text
  }

  function TrimGlobs(text: string): string {
    if |text| >= 3 && text[|text| - 3..] == "::*" then TrimGlobs(text[..|text| - 3]) else text
  }

  function Written(raw: string): string {
    TrimGlobs(TrimEnd(TrimStart(raw)))
  }

  function NonEmpty(parts: seq<string>): seq<string> {
    if parts == [] then []
    else if parts[0] == "" then NonEmpty(parts[1..]) else [parts[0]] + NonEmpty(parts[1..])
  }

  function Parts(path: string): seq<string> {
    NonEmpty(Split(path))
  }

  // ----- The longest known prefix -----

  /** A relative path never resolves to the module it stands in or to a module around it. */
  predicate Encloses(candidate: string, base: Option<string>) {
    base.Some? && (base.value == candidate || candidate + "::" <= base.value)
  }

  predicate Eligible(parts: seq<string>, modules: seq<string>, base: Option<string>) {
    Join(parts) in modules && !Encloses(Join(parts), base)
  }

  function Longest(parts: seq<string>, modules: seq<string>, base: Option<string>): Option<string> {
    if parts == [] then None
    else if Eligible(parts, modules, base) then Some(Join(parts))
    else Longest(parts[..|parts| - 1], modules, base)
  }

  ghost predicate IsLongest(parts: seq<string>, modules: seq<string>, base: Option<string>, end: int) {
    && 1 <= end <= |parts|
    && Eligible(parts[..end], modules, base)
    && forall e :: end < e <= |parts| ==> !Eligible(parts[..e], modules, base)
  }

  lemma {:induction false} LongestMeaning(parts: seq<string>, modules: seq<string>, base: Option<string>)
    ensures Longest(parts, modules, base).None? <==>
            forall e :: 1 <= e <= |parts| ==> !Eligible(parts[..e], modules, base)
    ensures Longest(parts, modules, base).Some? ==>
            exists e :: IsLongest(parts, modules, base, e) && Longest(parts, modules, base).value == Join(parts[..e])
  {
    assert parts[..|parts|] == parts;
    if parts != [] {
      if Eligible(parts, modules, base) {
        assert IsLongest(parts, modules, base, |parts|);
      } else {
        var front := parts[..|parts| - 1];
        LongestMeaning(front, modules, base);
        forall e | 1 <= e <= |front| ensures front[..e] == parts[..e] {}
        if Longest(front, modules, base).Some? {
          var e :| IsLongest(front, modules, base, e) && Longest(front, modules, base).value == Join(front[..e]);
          LongestOfFront(parts, modules, base, e);
        }
      }
    }
  }

  lemma LongestOfFront(parts: seq<string>, modules: seq<string>, base: Option<string>, e: int)
    requires parts != [] && !Eligible(parts, modules, base) && IsLongest(parts[..|parts| - 1], modules, base, e)
    ensures IsLongest(parts, modules, base, e) && parts[..|parts| - 1][..e] == parts[..e]
  {
    assert parts[..|parts|] == parts;
    forall d | 1 <= d < |parts| ensures parts[..|parts| - 1][..d] == parts[..d] {}
  }

  method DependencyPrefix(path: string, modules: seq<string>, base: Option<string>) returns (r: Option<string>)
    ensures r == Longest(Parts(path), modules, base)
  {
    var parts := Parts(path);
    assert parts[..|parts|] == parts;
    for end := |parts| downto 0
      invariant Longest(parts[..end], modules, base) == Longest(parts, modules, base)
    {
      assert parts[..end + 1][..end] == parts[..end];
      var candidate := Join(parts[..end + 1]);
      if !Encloses(candidate, base) && candidate in modules {
        return Some(candidate);
      }
    }
    return None;
  }

  // ----- Resolution -----

  predicate IsBare(text: string) {
    text != "" && !("crate::" <= text) && !("self::" <= text) && !(SUPER <= text)
  }

  function Resolve(raw: string, source: string, modules: seq<string>): Option<string> {
    var text := Written(raw);
    if text == "" then None
    else if "crate::" <= text then Longest(Parts(text[7..]), modules, None)
    else if "self::" <= text then Longest(Parts(source + "::" + text[6..]), modules, None)
    else if SUPER <= text then
      var climbed := Climb(Split(source), text);
      if climbed.None? then None else Longest(Parts(climbed.value), modules, Some(source))
    else
      var local := Longest(Parts(source + "::" + text), modules, None);
      if local.Some? && local.value != source then local else Longest(Parts(text), modules, None)
  }

  method ResolveDependency(raw: string, source: string, modules: seq<string>) returns (r: Option<string>)
    ensures r == Resolve(raw, source, modules)
  {
    var text := Written(raw);
    if text == "" {
      return None;
    }
    var base: Option<string> := None;
    if "crate::" <= text {
      text := text[7..];
    } else if "self::" <= text {
      text := source + "::" + text[6..];
    } else if SUPER <= text {
      base := Some(source);
      var climbed := ClimbPath(Split(source), text);
      if climbed.None? {
        return None;
      }
      text := climbed.value;
    } else {
      var local := DependencyPrefix(source + "::" + text, modules, None);
      if local.Some? && local.value != source {
        return local;
      }
    }
    r := DependencyPrefix(text, modules, base);
  }

  /** Whatever a path resolves to is a known module. */
  lemma ResolvedIsModule(raw: string, source: string, modules: seq<string>)
    ensures Resolve(raw, source, modules).Some? ==> Resolve(raw, source, modules).value in modules
  {
    var text := Written(raw);
    LongestMeaning(Parts(text[if |text| >= 7 then 7 else 0..]), modules, None);
    LongestMeaning(Parts(source + "::" + text[if |text| >= 6 then 6 else 0..]), modules, None);
    LongestMeaning(Parts(source + "::" + text), modules, None);
    LongestMeaning(Parts(text), modules, None);
    var climbed := Climb(Split(source), text);
    if climbed.Some? {
      LongestMeaning(Parts(climbed.value), modules, Some(source));
    }
  }

  /** A `super::` path never resolves to its source module or a module around it. */
  lemma SuperLeaves(raw: string, source: string, modules: seq<string>)
    requires SUPER <= Written(raw) && Resolve(raw, source, modules).Some?
    ensures var r := Resolve(raw, source, modules).value; r != source && !(r + "::" <= source)
  {
    var text := Written(raw);
    assert text[0] == 's' && text[1] == 'u' && text[2] == 'p';
    LongestMeaning(Parts(Climb(Split(source), text).value), modules, Some(source));
  }

  // ----- Bare paths -----

  /** Non-empty segments without a colon: what a module path is made of. */
  predicate Canonical(path: string) {
    forall p :: p in Split(path) ==> p != "" && ':' !in p
  }

  lemma {:induction false} SplitFirst(segment: string, text: string)
    requires ':' !in segment
    ensures Split(segment + "::" + text) == [segment] + Split(text)
  {
    var whole := segment + "::" + text;
    if segment == "" {
      assert whole[..2] == "::" && whole[2..] == text;
    } else {
      var rest := segment[1..];
      assert segment[0] in segment && whole == [segment[0]] + (rest + "::" + text);
      SplitFirst(rest, text);
      assert segment == [segment[0]] + rest;
    }
  }

  lemma {:induction false} SplitAfter(segments: seq<string>, text: string)
    requires segments != [] && forall p :: p in segments ==> ':' !in p
    ensures Split(Join(segments) + "::" + text) == segments + Split(text)
  {
    assert segments[0] in segments;
    if |segments| == 1 {
      SplitFirst(segments[0], text);
    } else {
      var rest := Join(segments[1..]) + "::" + text;
      assert Join(segments) + "::" + text == segments[0] + "::" + rest;
      SplitFirst(segments[0], rest);
      assert forall p :: p in segments[1..] ==> p in segments;
      SplitAfter(segments[1..], text);
      assert segments == [segments[0]] + segments[1..];
    }
  }

  lemma {:induction false} NonEmptyConcat(a: seq<string>, b: seq<string>)
    ensures NonEmpty(a + b) == NonEmpty(a) + NonEmpty(b)
  {
    if a == [] {
      assert a + b == b;
    } else {
      assert (a + b)[1..] == a[1..] + b;
      NonEmptyConcat(a[1..], b);
      assert a[0] != "" ==> [a[0]] + (NonEmpty(a[1..]) + NonEmpty(b)) == ([a[0]] + NonEmpty(a[1..])) + NonEmpty(b);
    }
  }

  lemma {:induction false} AllNonEmpty(parts: seq<string>)
    requires forall p :: p in parts ==> p != ""
    ensures NonEmpty(parts) == parts
  {
    if parts != [] {
      assert parts[0] in parts && forall p :: p in parts[1..] ==> p in parts;
      AllNonEmpty(parts[1..]);
      assert parts == [parts[0]] + parts[1..];
    }
  }

  /** Only empty segments are dropped. */
  lemma {:induction false} NonEmptyMeans(parts: seq<string>)
    ensures "" !in NonEmpty(parts)
    ensures multiset(NonEmpty(parts)) == multiset(parts)["" := 0]
  {
    if parts != [] {
      NonEmptyMeans(parts[1..]);
      assert parts == [parts[0]] + parts[1..];
    }
  }

  lemma PartsAfter(source: string, text: string)
    requires Canonical(source)
    ensures Parts(source + "::" + text) == Split(source) + Parts(text)
  {
    JoinSplit(source);
    SplitAfter(Split(source), text);
    NonEmptyConcat(Split(source), Split(text));
    AllNonEmpty(Split(source));
  }

  lemma {:induction false} JoinConcat(a: seq<string>, b: seq<string>)
    requires a != [] && b != []
    ensures Join(a + b) == Join(a) + "::" + Join(b)
  {
    if |a| == 1 {
      assert (a + b)[1..] == b;
    } else {
      assert (a + b)[1..] == a[1..] + b;
      JoinConcat(a[1..], b);
    }
  }

  /** Some non-empty prefix of the written path names a module below `source`. */
  ghost predicate LocalMatch(parts: seq<string>, source: string, modules: seq<string>, e: int) {
    1 <= e <= |parts| && source + "::" + Join(parts[..e]) in modules
  }

  lemma BelowSource(source: string, parts: seq<string>, e: nat)
    requires Canonical(source) && 1 <= e <= |parts|
    ensures var whole := Split(source) + parts;
            whole[..|Split(source)| + e] == Split(source) + parts[..e]
            && Join(whole[..|Split(source)| + e]) == source + "::" + Join(parts[..e])
  {
    JoinSplit(source);
    JoinConcat(Split(source), parts[..e]);
  }

  lemma EligibleBelow(source: string, parts: seq<string>, modules: seq<string>, d: nat)
    requires Canonical(source) && 1 <= d <= |parts|
    ensures Eligible((Split(source) + parts)[..|Split(source)| + d], modules, None) <==> LocalMatch(parts, source, modules, d)
  {
    BelowSource(source, parts, d);
  }

  lemma SourceEligible(source: string, parts: seq<string>, modules: seq<string>)
    requires source in modules
    ensures Eligible((Split(source) + parts)[..|Split(source)|], modules, None)
  {
    JoinSplit(source);
    assert (Split(source) + parts)[..|Split(source)|] == Split(source);
  }

  lemma LongestExists(parts: seq<string>, modules: seq<string>, k: nat) returns (best: nat)
    requires 1 <= k <= |parts| && Eligible(parts[..k], modules, None)
    ensures k <= best <= |parts| && IsLongest(parts, modules, None, best)
    ensures Longest(parts, modules, None) == Some(Join(parts[..best]))
  {
    LongestMeaning(parts, modules, None);
    best :| IsLongest(parts, modules, None, best) && Longest(parts, modules, None) == Some(Join(parts[..best]));
  }

  /** The longest known prefix of a path below `source` ends `e` segments below it. */
  lemma LongestBelow(source: string, parts: seq<string>, modules: seq<string>) returns (e: nat)
    requires Canonical(source) && source in modules
    ensures e <= |parts| && (e > 0 ==> LocalMatch(parts, source, modules, e))
    ensures forall d :: LocalMatch(parts, source, modules, d) ==> d <= e
    ensures Longest(Split(source) + parts, modules, None) ==
            Some(if e == 0 then source else source + "::" + Join(parts[..e]))
  {
    var n, whole := |Split(source)|, Split(source) + parts;
    SourceEligible(source, parts, modules);
    var best := LongestExists(whole, modules, n);
    e := best - n;
    forall d | LocalMatch(parts, source, modules, d) ensures d <= e {
      EligibleBelow(source, parts, modules, d);
    }
    if e > 0 {
      EligibleBelow(source, parts, modules, e);
      BelowSource(source, parts, e);
    } else {
      JoinSplit(source);
      assert whole[..n] == Split(source);
    }
  }

  /** A bare path that names a module below its source, in whole or by a prefix, resolves to the deepest
      such module; any other bare path resolves as if written from the crate root. */
  lemma BareResolves(raw: string, source: string, modules: seq<string>)
    requires IsBare(Written(raw)) && Canonical(source) && source in modules
    ensures var parts := Parts(Written(raw));
            if exists e :: LocalMatch(parts, source, modules, e)
            then exists e :: LocalMatch(parts, source, modules, e)
                   && (forall d :: LocalMatch(parts, source, modules, d) ==> d <= e)
                   && Resolve(raw, source, modules) == Some(source + "::" + Join(parts[..e]))
            else Resolve(raw, source, modules) == Longest(parts, modules, None)
  {
    var text := Written(raw);
    PartsAfter(source, text);
    var e := LongestBelow(source, Parts(text), modules);
  }

  // ----- Written paths -----

  /** White space around a path and globs after it make no difference. */
  lemma WrittenMeaning(before: string, core: string, globs: nat, after: string)
    requires (forall c :: c in before ==> IsSpace(c)) && (forall c :: c in after ==> IsSpace(c))
    requires core != "" && !IsSpace(core[0]) && !IsSpace(core[|core| - 1]) && !EndsInGlob(core)
    ensures Written(before + core + Globs(globs) + after) == core
  {
    var text := core + Globs(globs);
    GlobsLast(globs);
    assert !IsSpace(text[|text| - 1]);
    assert before + core + Globs(globs) + after == before + (text + after);
    assert (text + after)[0] == core[0];
    StartTrimmed(before, text + after);
    EndTrimmed(text, after);
    GlobsTrimmed(core, globs);
  }

  predicate EndsInGlob(text: string) {
    |text| >= 3 && text[|text| - 3..] == "::*"
  }

  function Globs(n: nat): string {
    if n == 0 then "" else Globs(n - 1) + "::*"
  }

  lemma GlobsLast(n: nat)
    ensures n > 0 ==> Globs(n) != "" && Globs(n)[|Globs(n)| - 1] == '*'
  {
  }

  lemma {:induction false} StartTrimmed(before: string, text: string)
    requires (forall c :: c in before ==> IsSpace(c)) && text != "" && !IsSpace(text[0])
    ensures TrimStart(before + text) == text
  {
    if before == "" {
      assert before + text == text;
    } else {
      assert before[0] in before && forall c :: c in before[1..] ==> c in before;
      assert (before + text)[1..] == before[1..] + text;
      StartTrimmed(before[1..], text);
    }
  }

  lemma {:induction false} EndTrimmed(text: string, after: string)
    requires (forall c :: c in after ==> IsSpace(c)) && text != "" && !IsSpace(text[|text| - 1])
    ensures TrimEnd(text + after) == text
  {
    if after == "" {
      assert text + after == text;
    } else {
      var front := after[..|after| - 1];
      assert after[|after| - 1] in after && forall c :: c in front ==> c in after;
      assert (text + after)[..|text + after| - 1] == text + front;
      EndTrimmed(text, front);
    }
  }

  lemma {:induction false} GlobsTrimmed(core: string, n: nat)
    requires !EndsInGlob(core)
    ensures TrimGlobs(core + Globs(n)) == core
  {
    var text := core + Globs(n);
    if n == 0 {
      assert text == core;
    } else {
      assert text == (core + Globs(n - 1)) + "::*";
      assert text[|text| - 3..] == "::*" && text[..|text| - 3] == core + Globs(n - 1);
      GlobsTrimmed(core, n - 1);
    }
  }

  // ----- Paths from the crate root, from the module itself and from around it -----

  /** The first `e` segments name a module, and no more of them do. */
  ghost predicate DeepestKnown(parts: seq<string>, modules: seq<string>, e: int) {
    1 <= e <= |parts| && Join(parts[..e]) in modules
    && forall d :: e < d <= |parts| ==> Join(parts[..d]) !in modules
  }

  ghost predicate ResolvesTo(r: Option<string>, parts: seq<string>, modules: seq<string>) {
    match r
    case Some(m) => exists e :: DeepestKnown(parts, modules, e) && m == Join(parts[..e])
    case None => forall e :: 1 <= e <= |parts| ==> Join(parts[..e]) !in modules
  }

  lemma LongestResolves(parts: seq<string>, modules: seq<string>)
    ensures ResolvesTo(Longest(parts, modules, None), parts, modules)
  {
    LongestMeaning(parts, modules, None);
    assert forall e :: 1 <= e <= |parts| ==> (Eligible(parts[..e], modules, None) <==> Join(parts[..e]) in modules);
    if Longest(parts, modules, None).Some? {
      var e :| IsLongest(parts, modules, None, e) && Longest(parts, modules, None).value == Join(parts[..e]);
      assert DeepestKnown(parts, modules, e);
    }
  }

  /** A path from the crate root resolves to the longest prefix that is a module, from whatever module it is
      written in. */
  lemma CrateResolves(raw: string, path: string, source: string, modules: seq<string>)
    requires Written(raw) == "crate::" + path
    ensures ResolvesTo(Resolve(raw, source, modules), Parts(path), modules)
  {
    var text := Written(raw);
    assert text[..7] == "crate::" && text[7..] == path;
    LongestResolves(Parts(path), modules);
  }

  /** A path from the module itself resolves to the deepest module below it that a prefix names, or to the module
      itself if there is none. */
  lemma SelfResolves(raw: string, path: string, source: string, modules: seq<string>)
    requires Written(raw) == "self::" + path && Canonical(source) && source in modules
    ensures var parts := Parts(path);
            if exists e :: LocalMatch(parts, source, modules, e)
            then exists e :: LocalMatch(parts, source, modules, e)
                   && (forall d :: LocalMatch(parts, source, modules, d) ==> d <= e)
                   && Resolve(raw, source, modules) == Some(source + "::" + Join(parts[..e]))
            else Resolve(raw, source, modules) == Some(source)
  {
    var text := Written(raw);
    assert text[..6] == "self::" && text[6..] == path;
    assert text[0] == 's';
    assert !("crate::" <= text);
    PartsAfter(source, path);
    var e := LongestBelow(source, Parts(path), modules);
  }

  /** `outer` is the inner module or a module around it. */
  predicate Around(outer: string, inner: string) {
    outer == inner || outer + "::" <= inner
  }

  /** The first `e` segments name a module that is not around `source`, and no more of them do. */
  ghost predicate DeepestOutside(parts: seq<string>, modules: seq<string>, source: string, e: int) {
    && 1 <= e <= |parts| && Join(parts[..e]) in modules && !Around(Join(parts[..e]), source)
    && forall d :: e < d <= |parts| && Join(parts[..d]) in modules ==> Around(Join(parts[..d]), source)
  }

  ghost predicate ResolvesOutside(r: Option<string>, parts: seq<string>, modules: seq<string>, source: string) {
    match r
    case Some(m) => exists e :: DeepestOutside(parts, modules, source, e) && m == Join(parts[..e])
    case None => forall e :: 1 <= e <= |parts| && Join(parts[..e]) in modules ==> Around(Join(parts[..e]), source)
  }

  lemma LongestOutside(parts: seq<string>, modules: seq<string>, source: string)
    ensures ResolvesOutside(Longest(parts, modules, Some(source)), parts, modules, source)
  {
    var base := Some(source);
    LongestMeaning(parts, modules, base);
    forall e | 1 <= e <= |parts|
      ensures Eligible(parts[..e], modules, base) <==> Join(parts[..e]) in modules && !Around(Join(parts[..e]), source)
    {
    }
    if Longest(parts, modules, base).Some? {
      var e :| IsLongest(parts, modules, base, e) && Longest(parts, modules, base).value == Join(parts[..e]);
      assert DeepestOutside(parts, modules, source, e);
    }
  }

  /** `k` steps out of the source and then `path`: the longest known prefix of what is left of the source, followed
      by the path, that does not lead back to the source or around it; nothing when the steps lead out of the crate. */
  lemma SuperResolves(raw: string, k: nat, path: string, source: string, modules: seq<string>)
    requires Written(raw) == Supers(k) + path && k > 0 && !(SUPER <= path) && Canonical(source)
    ensures var segments := Split(source);
            if k > |segments| then Resolve(raw, source, modules) == None
            else ResolvesOutside(Resolve(raw, source, modules), segments[..|segments| - k] + Parts(path), modules, source)
  {
    var text, segments := Written(raw), Split(source);
    assert text == SUPER + (Supers(k - 1) + path);
    assert text[0] == 's' && text[1] == 'u';
    assert SUPER <= text && !("crate::" <= text) && !("self::" <= text);
    ClimbMeaning(segments, k, path);
    if k <= |segments| {
      var left := segments[..|segments| - k];
      PartsClimbed(source, left, path);
      LongestOutside(left + Parts(path), modules, source);
    }
  }

  lemma PartsClimbed(source: string, left: seq<string>, path: string)
    requires Canonical(source) && left <= Split(source)
    ensures Parts(Join(left + [path])) == left + Parts(path)
  {
    assert forall p :: p in left ==> p in Split(source);
    if left == [] {
      assert left + [path] == [path];
      assert left + Parts(path) == Parts(path);
    } else {
      JoinConcat(left, [path]);
      SplitAfter(left, path);
      NonEmptyConcat(left, Split(path));
      AllNonEmpty(left);
    }
  }

  lemma NothingWritten(raw: string, source: string, modules: seq<string>)
    requires Written(raw) == ""
    ensures Resolve(raw, source, modules) == None
  {
  }
}
