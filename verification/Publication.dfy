/** Staged publication of a measurement batch behind a fail-closed marker
    (src/measurement/batch.rs, src/measurement/snapshot.rs). */
module Publication {
  import opened Order

  type Document = string
  type Files = map<string, Document>

  /** Output files of the schema tools (src/tool.rs). */
  const STANDARD: seq<string> := [
    "hotspots.json", "clones.json", "rust_escape_hatches.json", "reliability_findings.json",
    "architecture_rules.json", "api_health.json", "semantic_api.json", "type_health.json", "coverage.json",
    "function_risk.json", "correctness_review.json", "test_quality.json", "locality_metrics.json",
    "leverage_metrics.json", "module_cohesion.json", "map.json", "rust_practices.json",
    "source_expansion.json", "compiler_inventory.json"
  ]

  const SUFFIX: string := ".json"

  predicate IsBasename(file: string) {
    && |file| >= |SUFFIX| && file[|file| - |SUFFIX|..] == SUFFIX
    && '/' !in file && '\\' !in file && ':' !in file
  }

  // ----- File contents after staging and after publishing -----

  /** The artifacts among `names` that exist in `files`. */
  function Staged(files: Files, names: seq<string>): Files {
    map name | name in names && name in files :: files[name]
  }

  /** `files` with the named staged documents renamed over it, in order. */
  function Overlay(files: Files, staged: Files, names: seq<string>): Files
    requires forall n :: n in names ==> n in staged
  {
    if names == [] then files
    else
      var last := names[|names| - 1];
      assert last in names && forall n :: n in names[..|names| - 1] ==> n in names;
      Overlay(files, staged, names[..|names| - 1])[last := staged[last]]
  }

  lemma {:induction false} OverlayValue(files: Files, staged: Files, names: seq<string>, name: string)
    requires forall n :: n in names ==> n in staged
    ensures var r := Overlay(files, staged, names);
            && (name in r <==> name in files || name in names)
            && (name in names ==> r[name] == staged[name])
            && (name in files && name !in names ==> r[name] == files[name])
  {
    if names != [] {
      var front, last := names[..|names| - 1], names[|names| - 1];
      assert forall n :: n in front ==> n in names;
      assert forall n :: n in names <==> n in front || n == last;
      OverlayValue(files, staged, front, name);
    }
  }

  // ----- One writer, as the code runs -----

  /** The output directory: its artifacts and the marker file. */
  class Directory {
    var files: Files
    var marker: bool

    constructor (files: Files)
      ensures this.files == files && !marker
    {
      this.files, marker := files, false;
    }

    /** `create_new` on the marker succeeds exactly when it is absent. */
    method Acquire() returns (acquired: bool)
      modifies this`marker
      ensures acquired == !old(marker) && marker
    {
      acquired := !marker;
      marker := true;
    }

    method Release()
      modifies this`marker
      ensures !marker
    {
      marker := false;
    }
  }

  class Batch {
    const destination: Directory
    var staged: Files
    var written: set<string>

    ghost predicate Valid()
      reads this
    {
      written <= staged.Keys
    }

    constructor (destination: Directory, staged: Files)
      ensures this.destination == destination && this.staged == staged && written == {} && Valid()
    {
      this.destination, this.staged, written := destination, staged, {};
    }

    /** Opens a batch. A marker that is already there, live or left by a crash, refuses it and stays;
        an error while copying artifacts gives the marker back. */
    static method Open(destination: Directory, copyFails: bool) returns (batch: Option<Batch>)
      modifies destination`marker
      ensures batch.Some? <==> !old(destination.marker) && !copyFails
      ensures destination.marker == (old(destination.marker) || batch.Some?)
      ensures batch.Some? ==> fresh(batch.value) && batch.value.destination == destination && batch.value.Valid()
      ensures batch.Some? ==> batch.value.staged == Staged(destination.files, STANDARD) && batch.value.written == {}
    {
      var acquired := destination.Acquire();
      if !acquired {
        return None;
      }
      if copyFails {
        destination.Release();
        return None;
      }
      var staged := CopyArtifacts(destination.files, STANDARD);
      var b := new Batch(destination, staged);
      return Some(b);
    }

    method Write(file: string, document: Document) returns (ok: bool)
      requires Valid()
      modifies this
      ensures Valid() && ok == IsBasename(file)
      ensures staged == if ok then old(staged)[file := document] else old(staged)
      ensures written == if ok then old(written) + {file} else old(written)
    {
      ok := IsBasename(file);
      if ok {
        staged := staged[file := document];
        written := written + {file};
      }
    }

    /** Publishes and, however it ends, gives the marker back. `stable` says whether the
        inputs still have the fingerprint of the snapshot, `failing` is the first rename that fails, if any. */
    method Publish(stable: bool, failing: Option<nat>) returns (ok: bool)
      requires Valid() && destination.marker
      modifies destination
      ensures !destination.marker
      ensures var order := SortedKeys(written);
              ok == (stable && (failing.None? || failing.value >= |order|))
      ensures var order := SortedKeys(written);
              && (forall n :: n in order ==> n in staged)
              && destination.files ==
                   if !stable then old(destination.files)
                   else if ok then Overlay(old(destination.files), staged, order)
                   else Overlay(old(destination.files), staged, order[..failing.value])
    {
      ghost var order := SortedKeys(written);
      assert forall n :: n in order ==> n in Elements(order);
      if !stable {
        destination.Release();
        return false;
      }
      var rest := written;
      var count := 0;
      while rest != {}
        invariant 0 <= count <= |order| && rest == Elements(order[count..])
        invariant failing.None? || count <= failing.value
        invariant destination.files == Overlay(old(destination.files), staged, order[..count])
        invariant destination.marker && staged == old(staged) && written == old(written)
        decreases rest
      {
        var name := Least(rest);
        NextInOrder(order, count, name);
        if failing.Some? && failing.value == count {
          destination.Release();
          return false;
        }
        destination.files := destination.files[name := staged[name]];
        assert order[..count + 1][..count] == order[..count];
        rest := rest - {name};
        count := count + 1;
      }
      AllTaken(order, count);
      destination.Release();
      return true;
    }
  }

  method CopyArtifacts(files: Files, names: seq<string>) returns (staged: Files)
    ensures staged == Staged(files, names)
  {
    staged := map[];
    for i := 0 to |names|
      invariant staged == Staged(files, names[..i])
    {
      if names[i] in files {
        staged := staged[names[i] := files[names[i]]];
      }
    }
  }

  method Least(names: set<string>) returns (least: string)
    requires names != {}
    ensures least in names && forall n :: n in names ==> n == least || Less(least, n)
  {
    least :| least in names;
    var rest := names - {least};
    while rest != {}
      invariant rest <= names && least in names
      invariant forall n :: n in names - rest ==> n == least || Less(least, n)
      decreases rest
    {
      var n :| n in rest;
      rest := rest - {n};
      Trichotomy(n, least);
      if Less(n, least) {
        forall m | m in names - rest && m != n ensures Less(n, m) {
          if m != least { Transitive(n, least, m); }
        }
        least := n;
      }
    }
  }

  lemma AllTaken(order: seq<string>, count: nat)
    requires count <= |order| && Elements(order[count..]) == {}
    ensures count == |order| && order[..count] == order
  {
    if order[count..] != [] {
      SomeElement(order[count..]);
    }
  }

  lemma SomeElement(names: seq<string>)
    requires names != []
    ensures Elements(names) != {}
  {
    assert names[0] in Elements(names);
  }

  lemma NextInOrder(order: seq<string>, count: nat, name: string)
    requires Sorted(order) && count <= |order| && name in Elements(order[count..])
    requires forall n :: n in Elements(order[count..]) ==> n == name || Less(name, n)
    ensures count < |order| && order[count] == name
    ensures Elements(order[count..]) - {name} == Elements(order[count + 1..])
  {
    var tail := order[count..];
    assert tail[0] in Elements(tail);
    HeadIsLeast(tail, name);
    Trichotomy(name, tail[0]);
    TailElements(tail);
    assert tail[1..] == order[count + 1..];
  }

  // ----- Any number of cooperating writers, crashes and changing inputs -----

  datatype Phase =
    | Staging(pending: seq<string>)
    | Working
    | Publishing(done: nat)

  /** A batch in progress; `base` remembers the destination as it was when the marker was taken. */
  datatype Writer = Writer(phase: Phase, crashed: bool, snapshot: nat, base: Files, staged: Files, written: set<string>)

  /** `inputs` stands for the current input fingerprint. */
  datatype System = System(files: Files, marker: bool, inputs: nat, writers: map<nat, Writer>)

  ghost predicate Live(s: System, p: nat) {
    p in s.writers && !s.writers[p].crashed
  }

  datatype Step =
    | Take(p: nat, snapshot: nat)
    | Refused(p: nat)
    | CopyNext(p: nat)
    | Produce(p: nat, file: string, document: Document)
    | StartPublishing(p: nat)
    | RenameNext(p: nat)
    | Finish(p: nat)
    | Abandon(p: nat)
    | Crash(p: nat)
    | Recover(p: nat)
    | InputsChange(fingerprint: nat)

  function Leave(s: System, p: nat): System {
    s.(marker := false, writers := s.writers - {p})
  }

  function SetWriter(s: System, p: nat, w: Writer): System {
    s.(writers := s.writers[p := w])
  }

  /** One atomic step of one writer, of the operator or of the environment. */
  ghost predicate Next(s: System, step: Step, t: System) {
    match step
    case Take(p, snapshot) =>
      && p !in s.writers && !s.marker
      && t == SetWriter(s, p, Writer(Staging(STANDARD), false, snapshot, s.files, map[], {})).(marker := true)
    case Refused(p) => p !in s.writers && s.marker && t == s
    case CopyNext(p) =>
      && Live(s, p) && s.writers[p].phase.Staging?
      && var w := s.writers[p];
         if w.phase.pending == [] then t == SetWriter(s, p, w.(phase := Working))
         else
           var file := w.phase.pending[0];
           t == SetWriter(s, p, w.(phase := Staging(w.phase.pending[1..]),
                                   staged := if file in s.files then w.staged[file := s.files[file]] else w.staged))
    case Produce(p, file, document) =>
      && Live(s, p) && s.writers[p].phase.Working? && IsBasename(file)
      && var w := s.writers[p];
         t == SetWriter(s, p, w.(staged := w.staged[file := document], written := w.written + {file}))
    case StartPublishing(p) =>
      && Live(s, p) && s.writers[p].phase.Working? && s.writers[p].snapshot == s.inputs
      && t == SetWriter(s, p, s.writers[p].(phase := Publishing(0)))
    case RenameNext(p) =>
      && Live(s, p) && s.writers[p].phase.Publishing?
      && var w := s.writers[p];
         var order := SortedKeys(w.written);
         && w.phase.done < |order| && order[w.phase.done] in w.staged
         && t == SetWriter(s, p, w.(phase := Publishing(w.phase.done + 1)))
                 .(files := s.files[order[w.phase.done] := w.staged[order[w.phase.done]]])
    case Finish(p) =>
      && Live(s, p) && s.writers[p].phase.Publishing?
      && s.writers[p].phase.done == |SortedKeys(s.writers[p].written)|
      && t == Leave(s, p)
    // Any error, a changed input included, drops the batch and its marker.
    case Abandon(p) => Live(s, p) && t == Leave(s, p)
    // A crash drops nothing: the marker stays.
    case Crash(p) => Live(s, p) && t == SetWriter(s, p, s.writers[p].(crashed := true))
    // The operator removes the marker of a batch known to be dead.
    case Recover(p) => p in s.writers && s.writers[p].crashed && t == Leave(s, p)
    case InputsChange(fingerprint) => t == s.(inputs := fingerprint)
  }

  // ----- What every step keeps -----

  /** What a writer has changed so far, relative to the destination it started from. */
  ghost predicate Faithful(files: Files, w: Writer) {
    && (forall n :: n in w.written ==> n in w.staged)
    && match w.phase
       case Staging(pending) =>
         && files == w.base && w.written == {}
         && CopiedSoFar(w.base, w.staged, pending, STANDARD)
       case Working => files == w.base && StagedView(w)
       case Publishing(done) =>
         && StagedView(w) && PublishedSoFar(files, w.base, w.staged, SortedKeys(w.written), done)
  }

  ghost predicate CopiedSoFar(files: Files, staged: Files, pending: seq<string>, names: seq<string>) {
    exists copied :: copied + pending == names && staged == Staged(files, copied)
  }

  ghost predicate PublishedSoFar(files: Files, base: Files, staged: Files, order: seq<string>, done: nat) {
    && done <= |order|
    && (forall n :: n in order[..done] ==> n in staged)
    && files == Overlay(base, staged, order[..done])
  }

  /** Beyond what it wrote, a writer sees the standard artifacts of its base, unchanged. */
  ghost predicate StagedView(w: Writer) {
    forall n :: n !in w.written ==>
      && (n in w.staged <==> n in w.base && n in STANDARD)
      && (n in w.staged ==> w.staged[n] == w.base[n])
  }

  ghost predicate Inv(s: System) {
    && (s.marker <==> s.writers != map[])
    && (forall p, q :: p in s.writers && q in s.writers ==> p == q)
    && forall p :: p in s.writers ==> Faithful(s.files, s.writers[p])
  }

  ghost predicate Init(s: System) {
    !s.marker && s.writers == map[]
  }

  lemma NothingCopied(files: Files, names: seq<string>)
    ensures CopiedSoFar(files, map[], names, names)
  {
    assert [] + names == names;
    assert Staged(files, []) == map[];
  }

  lemma CopyStep(files: Files, staged: Files, pending: seq<string>, names: seq<string>)
    requires CopiedSoFar(files, staged, pending, names) && pending != []
    ensures var file := pending[0];
            CopiedSoFar(files, if file in files then staged[file := files[file]] else staged, pending[1..], names)
  {
    var copied :| copied + pending == names && staged == Staged(files, copied);
    var next := copied + [pending[0]];
    assert next + pending[1..] == names;
    assert (if pending[0] in files then staged[pending[0] := files[pending[0]]] else staged) == Staged(files, next);
  }

  lemma CopyDone(files: Files, staged: Files, names: seq<string>)
    requires CopiedSoFar(files, staged, [], names)
    ensures staged == Staged(files, names)
  {
    var copied :| copied + [] == names && staged == Staged(files, copied);
    assert copied == names;
  }

  lemma RenameStep(files: Files, base: Files, staged: Files, order: seq<string>, done: nat)
    requires PublishedSoFar(files, base, staged, order, done) && done < |order| && order[done] in staged
    ensures PublishedSoFar(files[order[done] := staged[order[done]]], base, staged, order, done + 1)
  {
    OverlayStep(base, staged, order, done);
  }

  lemma OverlayStep(files: Files, staged: Files, order: seq<string>, done: nat)
    requires done < |order| && order[done] in staged && forall n :: n in order[..done] ==> n in staged
    ensures forall n :: n in order[..done + 1] ==> n in staged
    ensures Overlay(files, staged, order[..done + 1])
         == Overlay(files, staged, order[..done])[order[done] := staged[order[done]]]
  {
    assert order[..done + 1] == order[..done] + [order[done]];
    assert order[..done + 1][..done] == order[..done];
  }

  /** The one batch of a system moves on, still faithful to the destination it started from. */
  lemma MoveKeepsInv(s: System, p: nat, w: Writer, files: Files)
    requires Inv(s) && p in s.writers && Faithful(files, w)
    ensures Inv(SetWriter(s, p, w).(files := files))
  {
    var t := SetWriter(s, p, w).(files := files);
    assert p in t.writers;
  }

  lemma CopyKeepsInv(s: System, p: nat, t: System)
    requires Inv(s) && Next(s, CopyNext(p), t)
    ensures Inv(t)
  {
    var w := s.writers[p];
    var pending := w.phase.pending;
    if pending == [] {
      CopyDone(w.base, w.staged, STANDARD);
      MoveKeepsInv(s, p, w.(phase := Working), s.files);
    } else {
      CopyStep(w.base, w.staged, pending, STANDARD);
      var staged := if pending[0] in s.files then w.staged[pending[0] := s.files[pending[0]]] else w.staged;
      MoveKeepsInv(s, p, w.(phase := Staging(pending[1..]), staged := staged), s.files);
    }
  }

  lemma RenameKeepsInv(s: System, p: nat, t: System)
    requires Inv(s) && Next(s, RenameNext(p), t)
    ensures Inv(t)
  {
    var w := s.writers[p];
    var order, done := SortedKeys(w.written), w.phase.done;
    assert Faithful(s.files, w);
    RenameStep(s.files, w.base, w.staged, order, done);
    MoveKeepsInv(s, p, w.(phase := Publishing(done + 1)), s.files[order[done] := w.staged[order[done]]]);
  }

  lemma ProduceKeepsInv(s: System, p: nat, file: string, document: Document, t: System)
    requires Inv(s) && Next(s, Produce(p, file, document), t)
    ensures Inv(t)
  {
    var w := s.writers[p];
    assert Faithful(s.files, w);
    MoveKeepsInv(s, p, w.(staged := w.staged[file := document], written := w.written + {file}), s.files);
  }

  lemma StartKeepsInv(s: System, p: nat, t: System)
    requires Inv(s) && Next(s, StartPublishing(p), t)
    ensures Inv(t)
  {
    var w := s.writers[p];
    assert Faithful(s.files, w);
    assert SortedKeys(w.written)[..0] == [];
    MoveKeepsInv(s, p, w.(phase := Publishing(0)), s.files);
  }

  lemma TakeKeepsInv(s: System, p: nat, snapshot: nat, t: System)
    requires Inv(s) && Next(s, Take(p, snapshot), t)
    ensures Inv(t)
  {
    NothingCopied(s.files, STANDARD);
    assert p in t.writers;
  }

  /** Every step of every writer keeps the invariant. */
  lemma NextKeepsInv(s: System, step: Step, t: System)
    requires Inv(s) && Next(s, step, t)
    ensures Inv(t)
  {
    match step
    case Take(p, snapshot) => TakeKeepsInv(s, p, snapshot, t);
    case CopyNext(p) => CopyKeepsInv(s, p, t);
    case Produce(p, file, document) => ProduceKeepsInv(s, p, file, document, t);
    case StartPublishing(p) => StartKeepsInv(s, p, t);
    case RenameNext(p) => RenameKeepsInv(s, p, t);
    case Crash(p) => MoveKeepsInv(s, p, s.writers[p].(crashed := true), s.files);
    case Finish(p) => LastLeaves(s, p);
    case Abandon(p) => LastLeaves(s, p);
    case Recover(p) => LastLeaves(s, p);
    case Refused(_) =>
    case InputsChange(_) =>
  }

  lemma LastLeaves(s: System, p: nat)
    requires Inv(s) && p in s.writers
    ensures s.writers - {p} == map[]
  {
  }

  ghost predicate IsRun(states: seq<System>, steps: seq<Step>) {
    && |states| == |steps| + 1 && Init(states[0])
    && forall i :: 0 <= i < |steps| ==> Next(states[i], steps[i], states[i + 1])
  }

  /** Over every run: the invariant holds in every state. */
  lemma {:induction false} RunKeepsInv(states: seq<System>, steps: seq<Step>, i: nat)
    requires IsRun(states, steps) && i < |states|
    ensures Inv(states[i])
  {
    if i > 0 {
      RunKeepsInv(states, steps, i - 1);
      NextKeepsInv(states[i - 1], steps[i - 1], states[i]);
    }
  }

  // ----- Safety over whole runs -----

  /** There is never more than one batch, and while there is one, live or crashed, no other can start. */
  lemma OneBatchAtATime(states: seq<System>, steps: seq<Step>, i: nat, p: nat)
    requires IsRun(states, steps) && i < |steps| && p in states[i].writers
    ensures forall q :: q in states[i].writers ==> q == p
    ensures !steps[i].Take?
  {
    RunKeepsInv(states, steps, i);
    assert Next(states[i], steps[i], states[i + 1]);
  }

  /** Only the renames of a batch whose inputs were unchanged when it began to publish ever alter the
      destination. */
  lemma OnlyRenamesAlterFiles(s: System, step: Step, t: System)
    requires Inv(s) && Next(s, step, t) && t.files != s.files
    ensures step.RenameNext? && Live(s, step.p) && s.writers[step.p].phase.Publishing?
  {
  }

  /** A batch that ends before publishing, because its inputs changed or for any other reason, leaves
      the destination as it found it; one that fails between renames leaves the old artifacts overlaid
      with a prefix of its written artifacts in name order. */
  lemma AbandonedBatch(states: seq<System>, steps: seq<Step>, i: nat, p: nat)
    requires IsRun(states, steps) && i < |steps| && steps[i] in {Abandon(p), Crash(p)}
    ensures p in states[i].writers
    ensures var w, files := states[i].writers[p], states[i + 1].files;
            match w.phase
            case Publishing(done) =>
              var order := SortedKeys(w.written);
              && done <= |order|
              && (forall n :: n in order[..done] ==> n in w.staged)
              && files == Overlay(w.base, w.staged, order[..done])
            case _ => files == w.base
  {
    RunKeepsInv(states, steps, i);
    assert Next(states[i], steps[i], states[i + 1]);
  }

  /** A batch publishes only after its inputs were seen to have the fingerprint of its snapshot. */
  lemma {:induction false} PublishedInputsWereStable(states: seq<System>, steps: seq<Step>, i: nat, p: nat)
    requires IsRun(states, steps) && i < |states|
    requires p in states[i].writers && states[i].writers[p].phase.Publishing?
    ensures exists j :: 0 <= j < i && steps[j] == StartPublishing(p)
                        && states[j].inputs == states[i].writers[p].snapshot
  {
    var s, step := states[i - 1], steps[i - 1];
    assert Next(s, step, states[i]);
    if p in s.writers && s.writers[p].phase.Publishing? {
      PublishedInputsWereStable(states, steps, i - 1, p);
    }
  }

  /** A successful batch leaves the destination equal to its staged view on every artifact it staged or
      wrote, and untouched elsewhere. */
  lemma FinishedBatch(states: seq<System>, steps: seq<Step>, i: nat, p: nat)
    requires IsRun(states, steps) && i < |steps| && steps[i] == Finish(p)
    ensures p in states[i].writers
    ensures var w, files := states[i].writers[p], states[i + 1].files;
            && (forall n :: n in w.staged ==> n in files && files[n] == w.staged[n])
            && (forall n :: n in w.written ==> n in w.staged)
            && (forall n :: n !in w.staged ==>
                  (n in files <==> n in w.base) && (n in files ==> files[n] == w.base[n]))
  {
    RunKeepsInv(states, steps, i);
    assert Next(states[i], steps[i], states[i + 1]);
    var w, files := states[i].writers[p], states[i + 1].files;
    var order := SortedKeys(w.written);
    assert order[..|order|] == order;
    assert forall n :: n in w.written <==> n in Elements(order);
    assert forall n :: n in order <==> n in w.written;
    forall n {
      OverlayValue(w.base, w.staged, order, n);
    }
  }
}
