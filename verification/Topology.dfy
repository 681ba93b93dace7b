/** Dependency cycles: the depth-first search with a shared visited set
    (src/artifacts/topology.rs). */
module Topology {

  type Graph = map<string, set<string>>

  function Successors(g: Graph, m: string): set<string> {
    if m in g then g[m] else {}
  }

  /** Every module the graph mentions, as a source or as a target. */
  function Nodes(g: Graph): set<string> {
    g.Keys + set m, t | m in g && t in g[m] :: t
  }

  // ----- The meaning of reachability, without any search -----

  ghost predicate IsWalk(g: Graph, p: seq<string>) {
    p != [] && forall i :: 0 <= i < |p| - 1 ==> p[i + 1] in Successors(g, p[i])
  }

  ghost predicate WalkFromTo(g: Graph, p: seq<string>, a: string, b: string) {
    IsWalk(g, p) && p[0] == a && p[|p| - 1] == b
  }

  ghost predicate Reaches(g: Graph, a: string, b: string) {
    exists p :: WalkFromTo(g, p, a, b)
  }

  /** `m` reaches itself by a walk of at least one step. */
  ghost predicate OnCycle(g: Graph, m: string) {
    exists p :: WalkFromTo(g, p, m, m) && |p| >= 2
  }

  ghost predicate Closed(g: Graph, s: set<string>) {
    forall v :: v in s ==> Successors(g, v) <= s
  }

  // ----- The search -----

  /** `seen` is the caller's visited set, `seen'` what the call leaves in it. A failed search
      adds `current`, never adds `target`, and the modules it adds have all their successors
      in the set: the set stays closed except where the caller is still at work. */
  method PathExists(current: string, target: string, g: Graph, seen: set<string>)
    returns (found: bool, seen': set<string>)
    requires current in Nodes(g) && target !in seen
    ensures seen <= seen' <= seen + Nodes(g)
    ensures found ==> Reaches(g, current, target)
    ensures !found ==> current in seen' && target !in seen'
    ensures !found ==> forall v :: v in seen' - seen ==> Successors(g, v) <= seen'
    decreases Nodes(g) - seen
  {
    seen' := seen;
    if current == target {
      assert WalkFromTo(g, [current], current, target);
      return true, seen';
    }
    if current in seen {
      return false, seen';
    }
    seen' := seen + {current};
    var pending := Successors(g, current);
    while pending != {}
      invariant pending <= Successors(g, current)
      invariant seen + {current} <= seen' <= seen + Nodes(g)
      invariant target !in seen'
      invariant Successors(g, current) - pending <= seen'
      invariant forall v :: v in seen' - seen && v != current ==> Successors(g, v) <= seen'
      decreases pending
    {
      var next :| next in pending;
      pending := pending - {next};
      assert next in Nodes(g);
      found, seen' := PathExists(next, target, g, seen');
      if found {
        StepThenReach(g, current, next, target);
        return;
      }
    }
    found := false;
  }

  /** The modules that lie on a dependency cycle, whatever order the maps iterate in. */
  method CycleModules(g: Graph) returns (cyclic: set<string>)
    ensures forall m :: m in cyclic <==> OnCycle(g, m)
  {
    cyclic := {};
    var modules := g.Keys;
    while modules != {}
      invariant modules <= g.Keys
      invariant forall m :: m in cyclic <==> m in g.Keys - modules && OnCycle(g, m)
      decreases modules
    {
      var module_ :| module_ in modules;
      modules := modules - {module_};
      var targets := g[module_];
      var found := false;
      while targets != {} && !found
        invariant targets <= g[module_]
        invariant found ==> OnCycle(g, module_)
        invariant !found ==> forall t :: t in g[module_] - targets ==> !Reaches(g, t, module_)
        decreases targets
      {
        var target :| target in targets;
        targets := targets - {target};
        assert target in Nodes(g);
        var seen;
        found, seen := PathExists(target, module_, g, {});
        if found {
          CycleByFirstStep(g, module_, target);
        } else {
          ClosedSetConfines(g, seen, target, module_);
        }
      }
      if found {
        cyclic := cyclic + {module_};
      } else if OnCycle(g, module_) {
        var t := FirstStepOfCycle(g, module_);
        assert false;
      }
    }
    forall m | OnCycle(g, m) ensures m in g {
      var t := FirstStepOfCycle(g, m);
    }
  }

  // ----- Walks -----

  lemma StepThenReach(g: Graph, a: string, b: string, c: string)
    requires b in Successors(g, a) && Reaches(g, b, c)
    ensures Reaches(g, a, c)
  {
    var p :| WalkFromTo(g, p, b, c);
    assert WalkFromTo(g, [a] + p, a, c);
  }

  lemma CycleByFirstStep(g: Graph, m: string, t: string)
    requires t in Successors(g, m) && Reaches(g, t, m)
    ensures OnCycle(g, m)
  {
    var p :| WalkFromTo(g, p, t, m);
    assert WalkFromTo(g, [m] + p, m, m) && |[m] + p| >= 2;
  }

  lemma FirstStepOfCycle(g: Graph, m: string) returns (t: string)
    requires OnCycle(g, m)
    ensures m in g && t in g[m] && Reaches(g, t, m)
  {
    var p :| WalkFromTo(g, p, m, m) && |p| >= 2;
    t := p[1];
    assert p[0 + 1] in Successors(g, p[0]);
    assert WalkFromTo(g, p[1..], t, m);
  }

  lemma ClosedSetConfines(g: Graph, s: set<string>, a: string, b: string)
    requires Closed(g, s) && a in s && b !in s
    ensures !Reaches(g, a, b)
  {
    forall p | WalkFromTo(g, p, a, b) ensures false {
      WalkStaysInside(g, s, p, |p| - 1);
    }
  }

  lemma {:induction false} WalkStaysInside(g: Graph, s: set<string>, p: seq<string>, i: nat)
    requires Closed(g, s) && IsWalk(g, p) && p[0] in s && i < |p|
    ensures p[i] in s
  {
    if i > 0 {
      WalkStaysInside(g, s, p, i - 1);
      assert p[(i - 1) + 1] in Successors(g, p[i - 1]);
    }
  }

  // ----- What an empty answer means: the graph can be layered -----

  ghost predicate Layered(g: Graph, rank: map<string, nat>) {
    Nodes(g) <= rank.Keys && forall m, t :: m in g && t in g[m] ==> rank[t] < rank[m]
  }

  ghost function Below(g: Graph, m: string): set<string> {
    set t | t in Nodes(g) && exists s :: s in Successors(g, m) && Reaches(g, s, t)
  }

  /** No module is on a cycle exactly when the modules can be ranked so that every
      dependency goes strictly down. */
  lemma AcyclicIffLayered(g: Graph)
    ensures (forall m :: !OnCycle(g, m)) <==> exists rank :: Layered(g, rank)
  {
    if rank :| Layered(g, rank) {
      forall m ensures !OnCycle(g, m) {
        if OnCycle(g, m) {
          var p :| WalkFromTo(g, p, m, m) && |p| >= 2;
          RankFallsAlong(g, rank, p, |p| - 1);
        }
      }
    }
    if forall m :: !OnCycle(g, m) {
      var rank: map<string, nat> := map m | m in Nodes(g) :: |Below(g, m)|;
      forall m, t | m in g && t in g[m] ensures rank[t] < rank[m] {
        BelowShrinks(g, m, t);
      }
      assert Layered(g, rank);
    }
  }

  lemma {:induction false} RankFallsAlong(g: Graph, rank: map<string, nat>, p: seq<string>, i: nat)
    requires Layered(g, rank) && IsWalk(g, p) && 1 <= i < |p|
    ensures p[0] in rank && p[i] in rank && rank[p[i]] < rank[p[0]]
  {
    assert p[(i - 1) + 1] in Successors(g, p[i - 1]);
    assert p[i - 1] in g && p[i] in Nodes(g);
    if i > 1 {
      RankFallsAlong(g, rank, p, i - 1);
    }
  }

  lemma BelowShrinks(g: Graph, m: string, t: string)
    requires t in Successors(g, m) && !OnCycle(g, t)
    ensures |Below(g, t)| < |Below(g, m)|
  {
    assert WalkFromTo(g, [t], t, t);
    assert m in g && t in g[m] && Reaches(g, t, t);
    assert t in Below(g, m);
    if t in Below(g, t) {
      var s :| s in Successors(g, t) && Reaches(g, s, t);
      CycleByFirstStep(g, t, s);
    }
    forall x | x in Below(g, t) ensures x in Below(g, m) {
      var s :| s in Successors(g, t) && Reaches(g, s, x);
      StepThenReach(g, t, s, x);
    }
    ProperSubsetIsSmaller(Below(g, t), Below(g, m));
  }

  lemma ProperSubsetIsSmaller<T>(a: set<T>, b: set<T>)
    requires a < b
    ensures |a| < |b|
  {
    assert b == a + (b - a);
    assert b - a != {};
  }
}
