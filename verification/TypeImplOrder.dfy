/** The type/impl index depends on which facts there are, not on their order (src/facts/type_identity.rs). */
module TypeImplOrder {
  import opened Order
  import opened TypeImpls
  import Permutations

  // ----- Lists gathered from the facts -----

  lemma {:induction false} DeclarationsConcat(a: seq<FileFacts>, b: seq<FileFacts>)
    ensures Declarations(a + b) == Declarations(a) + Declarations(b)
  {
    if b == [] {
      assert a + b == a;
    } else {
      var front := b[..|b| - 1];
      DeclarationsConcat(a, front);
      assert (a + b)[..|a + b| - 1] == a + front;
      Permutations.Regroup(Declarations(a), Declarations(front), Identities(b[|b| - 1]));
    }
  }

  lemma {:induction false} DeclarationsReordered(xs: seq<FileFacts>, ys: seq<FileFacts>)
    requires multiset(xs) == multiset(ys)
    ensures multiset(Declarations(xs)) == multiset(Declarations(ys))
  {
    if xs == [] {
      assert |multiset(ys)| == 0;
    } else {
      var i := Permutations.TakeOut(xs, ys);
      DeclarationsReordered(xs[..|xs| - 1], ys[..i] + ys[i + 1..]);
      DeclarationsConcat(ys[..i], ys[i + 1..]);
      DeclarationsConcat(ys[..i] + [ys[i]], ys[i + 1..]);
      DeclarationsConcat(ys[..i], [ys[i]]);
      OneFile(ys[i]);
    }
  }

  lemma OneFile(fact: FileFacts)
    ensures Declarations([fact]) == Identities(fact) && AllUses([fact]) == Uses(fact)
  {
    assert [fact][..0] == [];
    assert Declarations([]) == [] && AllUses([]) == [];
  }

  lemma {:induction false} UsesConcat(a: seq<FileFacts>, b: seq<FileFacts>)
    ensures AllUses(a + b) == AllUses(a) + AllUses(b)
  {
    if b == [] {
      assert a + b == a;
    } else {
      var front := b[..|b| - 1];
      UsesConcat(a, front);
      assert (a + b)[..|a + b| - 1] == a + front;
      Permutations.Regroup(AllUses(a), AllUses(front), Uses(b[|b| - 1]));
    }
  }

  lemma {:induction false} UsesReordered(xs: seq<FileFacts>, ys: seq<FileFacts>)
    requires multiset(xs) == multiset(ys)
    ensures multiset(AllUses(xs)) == multiset(AllUses(ys))
  {
    if xs == [] {
      assert |multiset(ys)| == 0;
    } else {
      var i := Permutations.TakeOut(xs, ys);
      UsesReordered(xs[..|xs| - 1], ys[..i] + ys[i + 1..]);
      UsesConcat(ys[..i], ys[i + 1..]);
      UsesConcat(ys[..i] + [ys[i]], ys[i + 1..]);
      UsesConcat(ys[..i], [ys[i]]);
      OneFile(ys[i]);
    }
  }

  lemma {:induction false} LimitsMember(facts: seq<FileFacts>, limit: Limitation)
    ensures limit in Limits(facts) <==> exists fact :: fact in facts && limit in Texts(fact.limitations)
  {
    if facts != [] {
      LimitsMember(facts[..|facts| - 1], limit);
      assert facts == facts[..|facts| - 1] + [facts[|facts| - 1]];
    }
  }

  // ----- Summaries -----

  /** A type is attributed exactly the blocks it owns, each as often as it occurs. */
  lemma {:induction false} AttributedExactly(own: Use -> Option<TypeIdentity>, uses: seq<Use>, id: TypeIdentity, u: Use)
    ensures multiset(Attributed(own, uses, id))[u] == if own(u) == Some(id) then multiset(uses)[u] else 0
  {
    if uses != [] {
      AttributedExactly(own, uses[..|uses| - 1], id, u);
      assert uses == uses[..|uses| - 1] + [uses[|uses| - 1]];
    }
  }

  lemma AttributedReordered(own: Use -> Option<TypeIdentity>, xs: seq<Use>, ys: seq<Use>, id: TypeIdentity)
    requires multiset(xs) == multiset(ys)
    ensures multiset(Attributed(own, xs, id)) == multiset(Attributed(own, ys, id))
  {
    forall u ensures multiset(Attributed(own, xs, id))[u] == multiset(Attributed(own, ys, id))[u] {
      AttributedExactly(own, xs, id, u);
      AttributedExactly(own, ys, id, u);
    }
  }

  lemma {:induction false} MethodsConcat(a: seq<Use>, b: seq<Use>)
    ensures Methods(a + b) == Methods(a) + Methods(b)
  {
    if b == [] {
      assert a + b == a;
    } else {
      var front := b[..|b| - 1];
      MethodsConcat(a, front);
      assert (a + b)[..|a + b| - 1] == a + front;
    }
  }

  lemma {:induction false} MethodsReordered(xs: seq<Use>, ys: seq<Use>)
    requires multiset(xs) == multiset(ys)
    ensures Methods(xs) == Methods(ys)
  {
    if xs == [] {
      assert |multiset(ys)| == 0;
    } else {
      var i := Permutations.TakeOut(xs, ys);
      MethodsReordered(xs[..|xs| - 1], ys[..i] + ys[i + 1..]);
      MethodsConcat(ys[..i], ys[i + 1..]);
      MethodsConcat(ys[..i] + [ys[i]], ys[i + 1..]);
      MethodsConcat(ys[..i], [ys[i]]);
      assert [ys[i]][..0] == [] && Methods([ys[i]]) == Methods([]) + ys[i].block.methods;
    }
  }

  lemma {:induction false} FilesMember(uses: seq<Use>, file: string)
    ensures file in Files(uses) <==> exists u :: u in uses && u.block.path == file
  {
    if uses != [] {
      FilesMember(uses[..|uses| - 1], file);
      assert uses == uses[..|uses| - 1] + [uses[|uses| - 1]];
    }
  }

  lemma SummarizeReordered(xs: seq<Use>, ys: seq<Use>)
    requires multiset(xs) == multiset(ys)
    ensures Summarize(xs) == Summarize(ys)
  {
    MethodsReordered(xs, ys);
    assert |xs| == |multiset(xs)| && |ys| == |multiset(ys)|;
    Permutations.SameMembers(xs, ys);
    forall file ensures file in Files(xs) <==> file in Files(ys) {
      FilesMember(xs, file);
      FilesMember(ys, file);
    }
  }

  lemma {:induction false} UnattributedExactly(own: Use -> Option<TypeIdentity>, uses: seq<Use>, u: Use)
    ensures multiset(Unattributed(own, uses))[u] == if own(u).None? then multiset(uses)[u] else 0
  {
    if uses != [] {
      UnattributedExactly(own, uses[..|uses| - 1], u);
      assert uses == uses[..|uses| - 1] + [uses[|uses| - 1]];
    }
  }

  lemma {:induction false} UnresolvedMember(own: Use -> Option<TypeIdentity>, uses: seq<Use>, limit: Limitation)
    ensures limit in Unresolved(own, uses) <==> limit.UnresolvedOwner? && limit.use in uses && own(limit.use).None?
  {
    if uses != [] {
      UnresolvedMember(own, uses[..|uses| - 1], limit);
      assert uses == uses[..|uses| - 1] + [uses[|uses| - 1]];
    }
  }

  lemma SummariesReordered(own: Use -> Option<TypeIdentity>, xs: seq<Use>, ys: seq<Use>)
    requires multiset(xs) == multiset(ys)
    ensures Summaries(own, xs) == Summaries(own, ys)
  {
    forall id
      ensures id in Owners(own, xs) <==> id in Owners(own, ys)
      ensures SummaryOf(own, xs, id) == SummaryOf(own, ys, id)
    {
      NobodysUses(own, xs, id);
      NobodysUses(own, ys, id);
      AttributedReordered(own, xs, ys, id);
      SummarizeReordered(Attributed(own, xs, id), Attributed(own, ys, id));
    }
  }

  lemma UnresolvedReordered(own: Use -> Option<TypeIdentity>, xs: seq<Use>, ys: seq<Use>)
    requires multiset(xs) == multiset(ys)
    ensures |Unattributed(own, xs)| == |Unattributed(own, ys)|
    ensures Unresolved(own, xs) == Unresolved(own, ys)
  {
    var a, b := Unattributed(own, xs), Unattributed(own, ys);
    forall u ensures multiset(a)[u] == multiset(b)[u] {
      UnattributedExactly(own, xs, u);
      UnattributedExactly(own, ys, u);
    }
    assert multiset(a) == multiset(b) && |multiset(a)| == |a| && |multiset(b)| == |b|;
    Permutations.SameMembers(xs, ys);
    forall limit ensures limit in Unresolved(own, xs) <==> limit in Unresolved(own, ys) {
      UnresolvedMember(own, xs, limit);
      UnresolvedMember(own, ys, limit);
    }
  }

  lemma ScopeReordered(xs: seq<TypeIdentity>, ys: seq<TypeIdentity>)
    requires multiset(xs) == multiset(ys)
    ensures ScopeOf(xs) == ScopeOf(ys)
  {
    Permutations.SameMembers(xs, ys);
    assert ScopeOf(xs).defined == ScopeOf(ys).defined;
    assert ScopeOf(xs).ambiguous == ScopeOf(ys).ambiguous;
  }

  /** Indices built from the same facts in any two orders are equal. */
  lemma IndexIgnoresOrder(facts: seq<FileFacts>, facts': seq<FileFacts>, index: TypeImplIndex, index': TypeImplIndex)
    requires multiset(facts) == multiset(facts')
    requires var scope := ScopeOf(Declarations(facts));
             index.Holds(OwnerIn(scope), AllUses(facts), Limits(facts) + Duplicates(scope.ambiguous))
    requires var scope := ScopeOf(Declarations(facts'));
             index'.Holds(OwnerIn(scope), AllUses(facts'), Limits(facts') + Duplicates(scope.ambiguous))
    ensures index.byType == index'.byType
    ensures index.unsupported == index'.unsupported
    ensures index.unresolved == index'.unresolved
  {
    DeclarationsReordered(facts, facts');
    ScopeReordered(Declarations(facts), Declarations(facts'));
    UsesReordered(facts, facts');
    var own := OwnerIn(ScopeOf(Declarations(facts)));
    SummariesReordered(own, AllUses(facts), AllUses(facts'));
    UnresolvedReordered(own, AllUses(facts), AllUses(facts'));
    Permutations.SameMembers(facts, facts');
    forall limit ensures limit in Limits(facts) <==> limit in Limits(facts') {
      LimitsMember(facts, limit);
      LimitsMember(facts', limit);
    }
    assert Limits(facts) == Limits(facts');
  }
}
