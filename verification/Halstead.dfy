/** Halstead token counts (rust_helpers/src/halstead.rs). */
module Halstead {
  import opened Order

  datatype Delimiter = Parenthesis | Brace | Bracket | NoDelimiter

  datatype Token =
    | Group(delimiter: Delimiter, stream: seq<Token>)
    | Ident(name: string)
    | Literal(text: string)
    | Punct(mark: char, joint: bool)

  const COMPOUND: seq<string> := [
    "+=", "-=", "*=", "/=", "%=", "^=", "&=", "|=", "<<=", ">>=", "==", "!=", "<=", ">=", "&&", "||",
    "<<", ">>", "::", "->", "=>", "..", "..=", "..."
  ]

  const KEYWORDS: seq<string> := [
    "as", "async", "await", "break", "const", "continue", "crate", "dyn", "else", "enum", "extern", "fn", "for",
    "if", "impl", "in", "let", "loop", "match", "mod", "move", "mut", "pub", "ref", "return", "static", "struct",
    "super", "trait", "type", "unsafe", "use", "where", "while", "abstract", "become", "box", "do", "final", "gen",
    "macro", "override", "priv", "try", "typeof", "unsized", "virtual", "yield"
  ]

  predicate Listed(spelling: string, list: seq<string>) {
    exists i :: 0 <= i < |list| && list[i] == spelling
  }

  predicate IsCompound(spelling: string) {
    Listed(spelling, COMPOUND)
  }

  predicate IsKeyword(spelling: string) {
    Listed(spelling, KEYWORDS)
  }

  // ----- Counts as values -----

  datatype Tally = Tally(operators: set<string>, operands: set<string>, totalOperators: nat, totalOperands: nat)

  const ZERO: Tally := Tally({}, {}, 0, 0)

  function Operator(spelling: string): Tally {
    Tally({spelling}, {}, 1, 0)
  }

  function Operand(category: string, spelling: string): Tally {
    Tally({}, {category + ":" + spelling}, 0, 1)
  }

  function Plus(a: Tally, b: Tally): Tally {
    Tally(a.operators + b.operators, a.operands + b.operands,
          a.totalOperators + b.totalOperators, a.totalOperands + b.totalOperands)
  }

  // ----- Attributes -----

  predicate IsMark(ts: seq<Token>, i: nat, mark: char) {
    i < |ts| && ts[i].Punct? && ts[i].mark == mark
  }

  /** The length of the attribute at the head of the tokens, 0 if there is none. */
  function AttributeEnd(ts: seq<Token>): (n: nat)
    ensures n <= |ts|
  {
    if !IsMark(ts, 0, '#') then 0
    else
      var next := if IsMark(ts, 1, '!') then 2 else 1;
      if next < |ts| && ts[next].Group? && ts[next].delimiter == Bracket then next + 1 else 0
  }

  // ----- Punctuation: maximal munch -----

  /** The first `n` tokens are one run of joined punctuation. */
  ghost predicate JointRun(ts: seq<Token>, n: nat) {
    && n <= |ts|
    && (forall i :: 0 <= i < n ==> ts[i].Punct?)
    && forall i :: 0 <= i < n - 1 ==> ts[i].joint
  }

  function Spelling(ts: seq<Token>, n: nat): string
    requires n <= |ts| && forall i :: 0 <= i < n ==> ts[i].Punct?
  {
    seq(n, i requires 0 <= i < n => ts[i].mark)
  }

  lemma SpellingGrows(ts: seq<Token>, n: nat)
    requires n < |ts| && forall i :: 0 <= i <= n ==> ts[i].Punct?
    ensures Spelling(ts, n + 1) == Spelling(ts, n) + [ts[n].mark]
  {
  }

  ghost predicate OperatorAt(ts: seq<Token>, n: nat) {
    1 <= n <= 3 && JointRun(ts, n) && (n == 1 || IsCompound(Spelling(ts, n)))
  }

  /** The longest operator that starts the tokens. */
  ghost predicate MaximalMunch(ts: seq<Token>, n: nat) {
    OperatorAt(ts, n) && forall k :: n < k <= 3 ==> !OperatorAt(ts, k)
  }

  function PunctuationLength(ts: seq<Token>): (n: nat)
    requires ts != [] && ts[0].Punct?
    ensures 1 <= n <= |ts| && forall i :: 0 <= i < n ==> ts[i].Punct?
  {
    var two := |ts| >= 2 && ts[0].joint && ts[1].Punct?;
    var three := two && |ts| >= 3 && ts[1].joint && ts[2].Punct?;
    if three && IsCompound(Spelling(ts, 3)) then 3
    else if two && IsCompound(Spelling(ts, 2)) then 2
    else 1
  }

  /** The scanner takes the longest operator. */
  lemma TakesLongest(ts: seq<Token>)
    requires ts != [] && ts[0].Punct?
    ensures MaximalMunch(ts, PunctuationLength(ts))
  {
  }

  lemma MunchUnique(ts: seq<Token>, m: nat)
    requires ts != [] && ts[0].Punct? && MaximalMunch(ts, m)
    ensures m == PunctuationLength(ts)
  {
    TakesLongest(ts);
  }

  /** The punctuation loop: up to three tokens while they are joined, remembering the last spelling
      that is an operator. */
  method Punctuation(ts: seq<Token>) returns (operator: string, consumed: nat)
    requires ts != [] && ts[0].Punct?
    ensures MaximalMunch(ts, consumed) && operator == Spelling(ts, consumed)
  {
    var spelling := "";
    operator, consumed := "", 0;
    var index := 0;
    while index < 3 && index < |ts| && ts[index].Punct?
      invariant 0 <= index <= 3 && JointRun(ts, index) && (index > 0 ==> ts[index - 1].joint)
      invariant spelling == Spelling(ts, index)
      invariant if index == 0 then consumed == 0
                else consumed <= index && OperatorAt(ts, consumed) && operator == Spelling(ts, consumed)
      invariant forall k :: consumed < k <= index ==> !OperatorAt(ts, k)
      decreases 3 - index
    {
      SpellingGrows(ts, index);
      spelling := spelling + [ts[index].mark];
      if index == 0 || IsCompound(spelling) {
        operator, consumed := spelling, index + 1;
      }
      if !ts[index].joint {
        return;
      }
      index := index + 1;
    }
  }

  // ----- Scanning -----

  predicate StartsLifetime(ts: seq<Token>) {
    |ts| >= 2 && ts[0].Punct? && ts[0].mark == '\'' && ts[0].joint && ts[1].Ident?
  }

  /** How many tokens the scanner takes from the head of the stream. */
  function Consumed(ts: seq<Token>): (n: nat)
    requires ts != []
    ensures 1 <= n <= |ts|
  {
    if AttributeEnd(ts) > 0 then AttributeEnd(ts)
    else if StartsLifetime(ts) then 2
    else if ts[0].Punct? then PunctuationLength(ts)
    else 1
  }

  function Brackets(d: Delimiter): Tally {
    match d
    case Parenthesis => Operator("()")
    case Brace => Operator("{}")
    case Bracket => Operator("[]")
    case NoDelimiter => ZERO
  }

  /** What the consumed head contributes. */
  function HeadTally(ts: seq<Token>): Tally
    requires ts != []
    decreases ts, 0
  {
    if AttributeEnd(ts) > 0 then ZERO
    else match ts[0]
      case Group(d, stream) => Plus(Brackets(d), Scan(stream))
      case Ident(name) => if IsKeyword(name) then Operator(name) else Operand("ident", name)
      case Literal(text) => Operand("literal", text)
      case Punct(_, _) =>
        if StartsLifetime(ts) then Operand("lifetime", ts[1].name)
        else Operator(Spelling(ts, PunctuationLength(ts)))
  }

  function Scan(ts: seq<Token>): Tally
    decreases ts, 1
  {
    if ts == [] then ZERO else Plus(HeadTally(ts), Scan(ts[Consumed(ts)..]))
  }

  /** The scanner's mutable counts; each operation adds to them exactly what Scan says. */
  class Counts {
    var operators: set<string>
    var operands: set<string>
    var totalOperators: nat
    var totalOperands: nat

    function Value(): Tally
      reads this
    {
      Tally(operators, operands, totalOperators, totalOperands)
    }

    constructor ()
      ensures Value() == ZERO
    {
      operators, operands, totalOperators, totalOperands := {}, {}, 0, 0;
    }

    method AddOperator(spelling: string)
      modifies this
      ensures Value() == Plus(old(Value()), Operator(spelling))
    {
      operators := operators + {spelling};
      totalOperators := totalOperators + 1;
    }

    method AddOperand(category: string, spelling: string)
      modifies this
      ensures Value() == Plus(old(Value()), Operand(category, spelling))
    {
      operands := operands + {category + ":" + spelling};
      totalOperands := totalOperands + 1;
    }

    method ScanStream(tokens: seq<Token>)
      modifies this
      ensures Value() == Plus(old(Value()), Scan(tokens))
      decreases tokens, 3
    {
      var remaining := tokens;
      while remaining != []
        invariant |remaining| <= |tokens| && remaining == tokens[|tokens| - |remaining|..]
        invariant Plus(Value(), Scan(remaining)) == Plus(old(Value()), Scan(tokens))
        decreases |remaining|
      {
        ghost var before := Value();
        var consumed := ScanHead(remaining);
        PlusAssociates(before, HeadTally(remaining), Scan(remaining[consumed..]));
        remaining := remaining[consumed..];
      }
    }

    /** One turn of the scanning loop: a whole attribute is skipped, any other head is counted. */
    method ScanHead(tokens: seq<Token>) returns (consumed: nat)
      requires tokens != []
      modifies this
      ensures consumed == Consumed(tokens)
      ensures Value() == Plus(old(Value()), HeadTally(tokens))
      decreases tokens, 2
    {
      consumed := AttributeEnd(tokens);
      if consumed == 0 {
        consumed := ScanToken(tokens);
      } else {
        PlusAssociates(Value(), ZERO, ZERO);
      }
    }

    method ScanToken(tokens: seq<Token>) returns (consumed: nat)
      requires tokens != [] && AttributeEnd(tokens) == 0
      modifies this
      ensures consumed == Consumed(tokens)
      ensures Value() == Plus(old(Value()), HeadTally(tokens))
      decreases tokens, 1
    {
      consumed := 1;
      match tokens[0] {
      case Group(delimiter, stream) =>
        ghost var before := Value();
        match delimiter {
          case Parenthesis => AddOperator("()");
          case Brace => AddOperator("{}");
          case Bracket => AddOperator("[]");
          case NoDelimiter =>
        }
        PlusAssociates(before, Brackets(delimiter), Scan(stream));
        ScanStream(stream);
      case Ident(name) =>
        if IsKeyword(name) {
          AddOperator(name);
        } else {
          AddOperand("ident", name);
        }
      case Literal(text) =>
        AddOperand("literal", text);
      case Punct(_, _) =>
        if StartsLifetime(tokens) {
          AddOperand("lifetime", tokens[1].name);
          return 2;
        }
        var operator;
        operator, consumed := Punctuation(tokens);
        MunchUnique(tokens, consumed);
        AddOperator(operator);
      }
    }
  }

  lemma PlusAssociates(a: Tally, b: Tally, c: Tally)
    ensures Plus(Plus(a, b), c) == Plus(a, Plus(b, c)) && Plus(a, ZERO) == a && Plus(ZERO, a) == a
  {
  }

  // ----- Additivity -----

  /** Some character would make a longer operator of the spelling. */
  ghost predicate BeginsOperator(spelling: string) {
    exists c: char :: IsCompound(spelling + [c])
  }

  /** The tokens are a single head that more tokens could still change: an attribute without its brackets, a quote
      without its name, or joined punctuation that begins a longer operator. */
  ghost predicate Pending(ts: seq<Token>) {
    || (|ts| == 1 && IsMark(ts, 0, '#'))
    || (|ts| == 2 && IsMark(ts, 0, '#') && IsMark(ts, 1, '!'))
    || (|ts| == 1 && ts[0] == Punct('\'', true))
    || (JoinedRun(ts) && BeginsOperator(Spelling(ts, |ts|)))
  }

  /** One or two joined punctuation tokens that the scanner reads as one operator. */
  ghost predicate JoinedRun(ts: seq<Token>) {
    && 1 <= |ts| <= 2 && (forall i :: 0 <= i < |ts| ==> ts[i].Punct? && ts[i].joint)
    && (|ts| == 2 ==> IsCompound(Spelling(ts, 2)))
  }

  /** The scanner's last head is pending. */
  ghost predicate OpenEnd(ts: seq<Token>)
    decreases |ts|
  {
    ts != [] && (Pending(ts) || OpenEnd(ts[Consumed(ts)..]))
  }

  /** Every operator of three characters begins with one of two, and none begins with `#`. */
  lemma CompoundShape(spelling: string)
    requires IsCompound(spelling)
    ensures 2 <= |spelling| <= 3 && spelling[0] != '#'
    ensures |spelling| == 3 ==> IsCompound(spelling[..2])
  {
    var i :| 0 <= i < |COMPOUND| && COMPOUND[i] == spelling;
    if |spelling| == 3 {
      assert i in {8, 9, 22, 23};
      var two := if i == 8 then 16 else if i == 9 then 17 else 21;
      assert spelling[..2] == COMPOUND[two];
    }
  }

  /** Tokens after a head that is not pending do not change it. */
  lemma HeadUnaffected(a: seq<Token>, b: seq<Token>)
    requires a != [] && !Pending(a)
    ensures AttributeEnd(a + b) == AttributeEnd(a) && Consumed(a + b) == Consumed(a)
    ensures HeadTally(a + b) == HeadTally(a)
  {
    var ts := a + b;
    assert forall i :: 0 <= i < |a| ==> ts[i] == a[i];
    assert AttributeEnd(ts) == AttributeEnd(a);
    assert StartsLifetime(ts) == StartsLifetime(a);
    if a[0].Punct? {
      SameMunch(a, b);
    }
  }

  lemma SameMunch(a: seq<Token>, b: seq<Token>)
    requires a != [] && !Pending(a) && a[0].Punct?
    ensures PunctuationLength(a + b) == PunctuationLength(a)
    ensures Spelling(a + b, PunctuationLength(a)) == Spelling(a, PunctuationLength(a))
  {
    var ts := a + b;
    var n := PunctuationLength(ts);
    TakesLongest(ts);
    assert forall i :: 0 <= i < |a| ==> ts[i] == a[i];
    if n > |a| {
      LongerMunch(a, b);
    }
    assert n <= |a| ==> Spelling(ts, n) == Spelling(a, n);
    forall k | 1 <= k <= 3 && k <= |a| ensures OperatorAt(ts, k) <==> OperatorAt(a, k) {
      if JointRun(a, k) { assert Spelling(ts, k) == Spelling(a, k); }
    }
    MunchUnique(a, n);
  }

  /** An operator that reaches beyond the tokens shows them pending. */
  lemma LongerMunch(a: seq<Token>, b: seq<Token>)
    requires a != [] && a[0].Punct? && PunctuationLength(a + b) > |a|
    ensures Pending(a)
  {
    var ts := a + b;
    var n := PunctuationLength(ts);
    TakesLongest(ts);
    assert forall i :: 0 <= i < |a| ==> ts[i] == a[i];
    var whole := Spelling(ts, n);
    if n == 3 {
      CompoundShape(whole);
    }
    var here := Spelling(a, |a|);
    assert here + [whole[|a|]] == whole[..|a| + 1];
    assert whole[..|a| + 1] == if n == |a| + 1 then whole else whole[..2];
    assert BeginsOperator(here);
    if |a| == 2 { assert here == whole[..2]; }
  }

  lemma {:induction false} HeadFirst(a: seq<Token>, b: seq<Token>)
    requires a != [] && !Pending(a)
    ensures Scan(a + b) == Plus(HeadTally(a), Scan(a[Consumed(a)..] + b))
  {
    HeadUnaffected(a, b);
    assert (a + b)[Consumed(a)..] == a[Consumed(a)..] + b;
  }

  /** Across a boundary that leaves nothing pending the counts add up and the vocabularies unite. */
  lemma {:induction false} ScanAdditive(a: seq<Token>, b: seq<Token>)
    requires !OpenEnd(a)
    ensures Scan(a + b) == Plus(Scan(a), Scan(b))
    decreases |a|
  {
    if a == [] {
      assert a + b == b;
    } else {
      var rest := ClosedStep(a);
      ScanAdditive(rest, b);
      HeadFirst(a, b);
      PlusAssociates(HeadTally(a), Scan(rest), Scan(b));
    }
  }

  lemma {:induction false} ClosedStep(a: seq<Token>) returns (rest: seq<Token>)
    requires a != [] && !OpenEnd(a)
    ensures !Pending(a) && rest == a[Consumed(a)..] && |rest| < |a| && !OpenEnd(rest)
    ensures Scan(a) == Plus(HeadTally(a), Scan(rest))
  {
    rest := a[Consumed(a)..];
  }

  /** Neither punctuation joined to what follows nor the beginning of an attribute ends the tokens. */
  predicate CleanEnd(ts: seq<Token>) {
    ts == [] ||
    var last := ts[|ts| - 1];
    !last.Punct?
    || (&& !last.joint && last.mark != '#'
        && !(last.mark == '!' && |ts| >= 2 && IsMark(ts, |ts| - 2, '#')))
  }

  /** A clean end leaves nothing pending. */
  lemma {:induction false} CleanIsClosed(ts: seq<Token>)
    requires CleanEnd(ts)
    ensures !OpenEnd(ts)
    decreases |ts|
  {
    if ts != [] {
      CleanIsClosed(ts[Consumed(ts)..]);
    }
  }

  // ----- Nothing weaker than an open end breaks additivity -----

  function Length(t: Tally): nat {
    t.totalOperators + t.totalOperands
  }

  /** A head that takes all tokens is all that is counted. */
  lemma {:induction false} WholeHead(ts: seq<Token>, n: nat)
    requires ts != [] && n == Consumed(ts) && n == |ts|
    ensures Length(Scan(ts)) == Length(HeadTally(ts))
  {
    HeadCounts(ts);
    NothingAfter(ts, n);
  }

  lemma {:induction false} HeadCounts(ts: seq<Token>)
    requires ts != []
    ensures Length(Scan(ts)) == Length(HeadTally(ts)) + Length(Scan(ts[Consumed(ts)..]))
  {
  }

  lemma {:induction false} NothingAfter(ts: seq<Token>, n: nat)
    requires n == |ts|
    ensures Length(Scan(ts[n..])) == 0
  {
    assert ts[n..] == [];
  }

  /** A head that is no group counts once. */
  lemma {:induction false} HeadLength(ts: seq<Token>)
    requires ts != [] && !ts[0].Group? && AttributeEnd(ts) == 0
    ensures Length(HeadTally(ts)) == 1
  {
  }

  lemma {:induction false} SingleHead(ts: seq<Token>)
    requires |ts| == 1
    ensures Consumed(ts) == 1 && AttributeEnd(ts) == 0
  {
  }

  lemma {:induction false} AttributeHead(ts: seq<Token>)
    requires ts != [] && AttributeEnd(ts) > 0
    ensures Consumed(ts) == AttributeEnd(ts) && HeadTally(ts) == ZERO && Length(HeadTally(ts)) == 0
  {
  }

  lemma {:induction false} LoneToken(ts: seq<Token>)
    requires |ts| == 1 && !ts[0].Group?
    ensures Length(Scan(ts)) == 1
  {
    SingleHead(ts);
    HeadLength(ts);
    WholeHead(ts, 1);
  }

  lemma {:induction false} WholeAttribute(ts: seq<Token>)
    requires ts != [] && AttributeEnd(ts) == |ts|
    ensures Length(Scan(ts)) == 0
  {
    AttributeHead(ts);
    WholeHead(ts, Consumed(ts));
  }

  // Each kind of pending tokens, alone and completed.

  const BRACKETS: seq<Token> := [Group(Bracket, [])]
  const NAME: seq<Token> := [Ident("x")]

  lemma MarkCompleted(a: seq<Token>)
    requires 1 <= |a| <= 2 && IsMark(a, 0, '#') && (|a| == 2 ==> IsMark(a, 1, '!'))
    ensures AttributeEnd(a + BRACKETS) == |a + BRACKETS|
  {
    var ts := a + BRACKETS;
    assert ts[|a|] == Group(Bracket, []);
    assert forall i :: 0 <= i < |a| ==> ts[i] == a[i];
  }

  lemma MarkAlone(ts: seq<Token>)
    requires |ts| == 2 && IsMark(ts, 0, '#') && IsMark(ts, 1, '!')
    ensures Consumed(ts) == 1 && AttributeEnd(ts) == 0
  {
    if IsCompound(Spelling(ts, 2)) {
      CompoundShape(Spelling(ts, 2));
    }
  }

  lemma {:induction false} MarksCount(ts: seq<Token>)
    requires 1 <= |ts| <= 2 && IsMark(ts, 0, '#') && (|ts| == 2 ==> IsMark(ts, 1, '!'))
    ensures Length(Scan(ts)) >= 1
  {
    if |ts| == 1 {
      LoneToken(ts);
    } else {
      MarkAlone(ts);
      HeadLength(ts);
      HeadCounts(ts);
    }
  }

  lemma {:induction false} QuoteCompleted(a: seq<Token>)
    requires a == [Punct('\'', true)]
    ensures Length(Scan(a + NAME)) == 1
  {
    QuoteHead(a + NAME);
    HeadLength(a + NAME);
    WholeHead(a + NAME, 2);
  }

  lemma QuoteHead(ts: seq<Token>)
    requires ts == [Punct('\'', true)] + NAME
    ensures Consumed(ts) == |ts| && !ts[0].Group? && AttributeEnd(ts) == 0
  {
  }

  lemma RunHead(a: seq<Token>)
    requires JoinedRun(a)
    ensures !a[0].Group? && AttributeEnd(a) == 0
  {
  }

  lemma {:induction false} RunCounts(a: seq<Token>)
    requires JoinedRun(a)
    ensures Length(Scan(a)) >= 1
  {
    RunHead(a);
    HeadLength(a);
    HeadCounts(a);
  }

  lemma {:induction false} LongerRunCounts(a: seq<Token>, c: char)
    requires JoinedRun(a) && IsCompound(Spelling(a, |a|) + [c])
    ensures Length(Scan(a + [Punct(c, false)])) == 1
  {
    LongerRunHead(a, c);
    HeadLength(a + [Punct(c, false)]);
    WholeHead(a + [Punct(c, false)], |a| + 1);
  }

  lemma LongerRunHead(a: seq<Token>, c: char)
    requires JoinedRun(a) && IsCompound(Spelling(a, |a|) + [c])
    ensures var ts := a + [Punct(c, false)];
            ts[0].Punct? && AttributeEnd(ts) == 0 && Consumed(ts) == |ts|
  {
    var ts := a + [Punct(c, false)];
    assert Spelling(ts, |ts|) == Spelling(a, |a|) + [c];
    CompoundShape(Spelling(ts, |ts|));
    assert ts[0].mark == Spelling(ts, |ts|)[0];
    assert OperatorAt(ts, |ts|);
    MunchUnique(ts, |ts|);
  }

  /** Pending tokens and what completes them count for less together than apart. */
  lemma {:induction false} PendingBreaks(a: seq<Token>) returns (b: seq<Token>)
    requires Pending(a)
    ensures Length(Scan(a + b)) < Length(Scan(a)) + Length(Scan(b))
  {
    if 1 <= |a| <= 2 && IsMark(a, 0, '#') && (|a| == 2 ==> IsMark(a, 1, '!')) {
      b := BRACKETS;
      MarksCount(a);
      MarkCompleted(a);
      WholeAttribute(a + BRACKETS);
    } else if a == [Punct('\'', true)] {
      b := NAME;
      LoneToken(a);
      LoneToken(NAME);
      QuoteCompleted(a);
    } else {
      var c: char :| IsCompound(Spelling(a, |a|) + [c]);
      b := [Punct(c, false)];
      LoneToken([Punct(c, false)]);
      RunCounts(a);
      LongerRunCounts(a, c);
    }
  }

  lemma {:induction false} OpenEndBreaks(a: seq<Token>) returns (b: seq<Token>)
    requires OpenEnd(a)
    ensures Length(Scan(a + b)) < Length(Scan(a)) + Length(Scan(b))
    decreases |a|
  {
    if Pending(a) {
      b := PendingBreaks(a);
    } else {
      b := OpenEndBreaks(a[Consumed(a)..]);
      HeadFirst(a, b);
    }
  }

  /** Scanning adds up across the end of `a`, whatever follows, exactly when no head is pending there. */
  lemma {:induction false} AdditiveIff(a: seq<Token>)
    ensures (forall b :: Scan(a + b) == Plus(Scan(a), Scan(b))) <==> !OpenEnd(a)
  {
    if OpenEnd(a) {
      var b := OpenEndBreaks(a);
      assert Scan(a + b) != Plus(Scan(a), Scan(b));
    } else {
      forall b ensures Scan(a + b) == Plus(Scan(a), Scan(b)) {
        ScanAdditive(a, b);
      }
    }
  }

  // ----- Attributes -----

  /** `#` or `#!` and a bracketed group. */
  predicate IsAttribute(ts: seq<Token>) {
    && (|ts| == 2 || (|ts| == 3 && IsMark(ts, 1, '!')))
    && IsMark(ts, 0, '#') && ts[|ts| - 1].Group? && ts[|ts| - 1].delimiter == Bracket
  }

  lemma {:induction false} SilentHead(ts: seq<Token>, n: nat, b: seq<Token>)
    requires ts != [] && !Pending(ts) && n == Consumed(ts) && n == |ts| && HeadTally(ts) == ZERO
    ensures Scan(ts + b) == Scan(b)
  {
    HeadFirst(ts, b);
    AllTaken(ts, b, n);
    PlusAssociates(Scan(b), ZERO, ZERO);
  }

  lemma AllTaken(ts: seq<Token>, b: seq<Token>, n: nat)
    requires n == |ts|
    ensures ts[n..] + b == b
  {
  }

  lemma AttributeShape(ts: seq<Token>)
    requires IsAttribute(ts)
    ensures AttributeEnd(ts) == |ts| && !Pending(ts)
  {
  }

  lemma {:induction false} AttributeSilent(ts: seq<Token>) returns (n: nat)
    requires IsAttribute(ts)
    ensures ts != [] && !Pending(ts) && n == Consumed(ts) && n == |ts| && HeadTally(ts) == ZERO
  {
    n := |ts|;
    AttributeShape(ts);
    AttributeHead(ts);
  }

  lemma {:induction false} AttributeSkipped(attribute: seq<Token>, b: seq<Token>)
    requires IsAttribute(attribute)
    ensures Scan(attribute + b) == Scan(b)
  {
    var n := AttributeSilent(attribute);
    SilentHead(attribute, n, b);
  }

  /** Inserting a whole attribute where nothing is pending changes nothing. */
  lemma {:induction false} AttributesInvisible(a: seq<Token>, attribute: seq<Token>, b: seq<Token>)
    requires !OpenEnd(a) && IsAttribute(attribute)
    ensures Scan(a + (attribute + b)) == Scan(a + b)
  {
    AttributeSkipped(attribute, b);
    ScanAdditive(a, attribute + b);
    ScanAdditive(a, b);
  }

  // ----- What each kind of token counts as -----

  function Reserved(ts: seq<Token>): set<nat> {
    set i | 0 <= i < |ts| && ts[i].Ident? && ts[i].name in KEYWORDS
  }

  lemma ListedMeans(spelling: string, list: seq<string>)
    ensures Listed(spelling, list) <==> spelling in list
  {
    if spelling in list { var i :| 0 <= i < |list| && list[i] == spelling; }
  }

  lemma {:induction false} WordAlone(name: string)
    ensures Scan([Ident(name)]) == WordTally(name)
  {
    ListedMeans(name, KEYWORDS);
    LoneHead([Ident(name)]);
    WordHead(name);
  }

  lemma {:induction false} WordHead(name: string)
    ensures HeadTally([Ident(name)]) ==
            if IsKeyword(name) then Tally({name}, {}, 1, 0) else Tally({}, {"ident" + ":" + name}, 0, 1)
    ensures "ident" + ":" + name == "ident:" + name
  {
  }

  lemma {:induction false} LoneHead(ts: seq<Token>)
    requires |ts| == 1
    ensures Scan(ts) == HeadTally(ts) && AttributeEnd(ts) == 0
  {
    SingleHead(ts);
    assert ts[1..] == [];
    PlusAssociates(HeadTally(ts), ZERO, ZERO);
  }

  ghost function WordOperators(ts: seq<Token>): set<string>
    requires forall t :: t in ts ==> t.Ident?
  {
    set i | i in Reserved(ts) :: ts[i].name
  }

  ghost function WordOperands(ts: seq<Token>): set<string>
    requires forall t :: t in ts ==> t.Ident?
  {
    set i | 0 <= i < |ts| && i !in Reserved(ts) :: "ident:" + ts[i].name
  }

  ghost predicate CountsWords(t: Tally, ts: seq<Token>)
    requires forall t :: t in ts ==> t.Ident?
  {
    && t.operators == WordOperators(ts) && t.operands == WordOperands(ts)
    && t.totalOperators == |Reserved(ts)| && t.totalOperands == |ts| - |Reserved(ts)|
  }

  /** In a stream of words the reserved ones are the operators and the others, each as an identifier, the operands;
      every occurrence counts once. */
  lemma {:induction false} WordsCounted(ts: seq<Token>)
    requires forall t :: t in ts ==> t.Ident?
    ensures CountsWords(Scan(ts), ts)
  {
    if ts != [] {
      var front, last := ts[..|ts| - 1], ts[|ts| - 1];
      assert ts == front + [last] && last in ts;
      WordsCounted(front);
      WordAdded(front, last);
      TallyAppended(Scan(front), front, last);
    }
  }

  function WordTally(name: string): Tally {
    if name in KEYWORDS then Tally({name}, {}, 1, 0) else Tally({}, {"ident:" + name}, 0, 1)
  }

  lemma {:induction false} TallyAppended(before: Tally, front: seq<Token>, last: Token)
    requires last.Ident? && (forall t :: t in front ==> t.Ident?) && CountsWords(before, front)
    ensures (forall t :: t in front + [last] ==> t.Ident?) && CountsWords(Plus(before, WordTally(last.name)), front + [last])
  {
    WordsAppended(front, last);
  }

  lemma {:induction false} WordAdded(front: seq<Token>, last: Token)
    requires last.Ident? && forall t :: t in front ==> t.Ident?
    ensures Scan(front + [last]) == Plus(Scan(front), WordTally(last.name))
  {
    assert front != [] ==> front[|front| - 1] in front;
    CleanIsClosed(front);
    ScanAdditive(front, [last]);
    WordAlone(last.name);
  }

  lemma {:induction false} WordsAppended(front: seq<Token>, last: Token)
    requires last.Ident? && forall t :: t in front ==> t.Ident?
    ensures var ts := front + [last];
            && (forall t :: t in ts ==> t.Ident?)
            && Reserved(ts) == Reserved(front) + (if last.name in KEYWORDS then {|front|} else {})
            && WordOperators(ts) == WordOperators(front) + (if last.name in KEYWORDS then {last.name} else {})
            && WordOperands(ts) == WordOperands(front) + (if last.name in KEYWORDS then {} else {"ident:" + last.name})
  {
    var ts := front + [last];
    assert forall i :: 0 <= i < |front| ==> ts[i] == front[i];
    assert ts[|front|] == last;
    assert forall i :: i in Reserved(ts) <==> i in Reserved(front) || (i == |front| && last.name in KEYWORDS);
  }

  lemma {:induction false} LiteralCounted(text: string)
    ensures Scan([Literal(text)]) == Tally({}, {"literal:" + text}, 0, 1)
  {
    LoneHead([Literal(text)]);
    assert HeadTally([Literal(text)]) == Operand("literal", text);
    assert "literal" + ":" + text == "literal:" + text;
  }

  lemma {:induction false} GroupScan(delimiter: Delimiter, stream: seq<Token>)
    ensures Scan([Group(delimiter, stream)]) == Plus(Brackets(delimiter), Scan(stream))
  {
    LoneHead([Group(delimiter, stream)]);
    GroupTally([Group(delimiter, stream)]);
  }

  /** `whole` counts as `inner` does and the delimiters as one operator besides, if there are any. */
  predicate Delimits(delimiter: Delimiter, inner: Tally, whole: Tally) {
    match delimiter
    case Parenthesis => whole == inner.(operators := inner.operators + {"()"}, totalOperators := inner.totalOperators + 1)
    case Brace => whole == inner.(operators := inner.operators + {"{}"}, totalOperators := inner.totalOperators + 1)
    case Bracket => whole == inner.(operators := inner.operators + {"[]"}, totalOperators := inner.totalOperators + 1)
    case NoDelimiter => whole == inner
  }

  lemma Surrounded(delimiter: Delimiter, t: Tally)
    ensures Delimits(delimiter, t, Plus(Brackets(delimiter), t))
  {
    PlusAssociates(t, ZERO, ZERO);
    assert {} + t.operands == t.operands;
    assert forall s: string :: {s} + t.operators == t.operators + {s};
  }

  /** A group counts what is in it, and its delimiters as one operator if it has any. */
  lemma {:induction false} GroupCounted(delimiter: Delimiter, stream: seq<Token>)
    ensures Delimits(delimiter, Scan(stream), Scan([Group(delimiter, stream)]))
  {
    GroupScan(delimiter, stream);
    Surrounded(delimiter, Scan(stream));
  }

  /** A quote joined to a name is one operand, the lifetime. */
  lemma {:induction false} LifetimeCounted(name: string)
    ensures Scan([Punct('\'', true), Ident(name)]) == Tally({}, {"lifetime:" + name}, 0, 1)
  {
    var ts := [Punct('\'', true), Ident(name)];
    assert StartsLifetime(ts) && AttributeEnd(ts) == 0 && Consumed(ts) == 2;
    assert HeadTally(ts) == Operand("lifetime", name);
    WholeScan(ts);
    assert "lifetime" + ":" + name == "lifetime:" + name;
  }

  lemma {:induction false} WholeScan(ts: seq<Token>)
    requires ts != [] && Consumed(ts) == |ts|
    ensures Scan(ts) == HeadTally(ts)
  {
    assert ts[Consumed(ts)..] == [];
    PlusAssociates(HeadTally(ts), ZERO, ZERO);
  }

  /** Joined punctuation that spells an operator is that operator, once; so is any single mark. */
  lemma {:induction false} OperatorCounted(ts: seq<Token>)
    requires JointRun(ts, |ts|) && (|ts| == 1 || (2 <= |ts| <= 3 && Spelling(ts, |ts|) in COMPOUND))
    ensures Scan(ts) == Tally({Spelling(ts, |ts|)}, {}, 1, 0)
  {
    assert |ts| > 1 ==> IsCompound(Spelling(ts, |ts|)) by {
      if |ts| > 1 { var i :| 0 <= i < |COMPOUND| && COMPOUND[i] == Spelling(ts, |ts|); }
    }
    assert MaximalMunch(ts, |ts|);
    MunchUnique(ts, |ts|);
    OnlyMarks(ts);
    WholeScan(ts);
  }

  lemma OnlyMarks(ts: seq<Token>)
    requires ts != [] && forall i :: 0 <= i < |ts| ==> ts[i].Punct?
    ensures AttributeEnd(ts) == 0 && !StartsLifetime(ts)
  {
  }

  /** An attribute, brackets and all, counts for nothing. */
  lemma {:induction false} AttributeCounted(ts: seq<Token>)
    requires IsAttribute(ts)
    ensures Scan(ts) == Tally({}, {}, 0, 0)
  {
    var n := AttributeSilent(ts);
    WholeScan(ts);
  }

  // ----- Distinct against total -----

  ghost predicate WithinTotal(t: Tally) {
    |t.operators| <= t.totalOperators && |t.operands| <= t.totalOperands
  }

  lemma {:induction false} DistinctWithinTotal(ts: seq<Token>)
    ensures WithinTotal(Scan(ts))
    decreases ts, 1
  {
    if ts != [] {
      HeadWithinTotal(ts);
      DistinctWithinTotal(ts[Consumed(ts)..]);
      PlusWithinTotal(HeadTally(ts), Scan(ts[Consumed(ts)..]));
    }
  }

  lemma {:induction false} HeadWithinTotal(ts: seq<Token>)
    requires ts != []
    ensures WithinTotal(HeadTally(ts))
    decreases ts, 0
  {
    if AttributeEnd(ts) == 0 && ts[0].Group? {
      var stream := ts[0].stream;
      DistinctWithinTotal(stream);
      PlusWithinTotal(Brackets(ts[0].delimiter), Scan(stream));
      GroupTally(ts);
    } else {
      LeafWithinTotal(ts);
    }
  }

  lemma GroupTally(ts: seq<Token>)
    requires ts != [] && AttributeEnd(ts) == 0 && ts[0].Group?
    ensures HeadTally(ts) == Plus(Brackets(ts[0].delimiter), Scan(ts[0].stream))
  {
  }

  lemma LeafWithinTotal(ts: seq<Token>)
    requires ts != [] && (AttributeEnd(ts) > 0 || !ts[0].Group?)
    ensures WithinTotal(HeadTally(ts))
  {
  }

  lemma PlusWithinTotal(a: Tally, b: Tally)
    requires WithinTotal(a) && WithinTotal(b)
    ensures WithinTotal(Plus(a, b))
  {
    UnionSize(a.operators, b.operators);
    UnionSize(a.operands, b.operands);
  }

  lemma UnionSize<T>(a: set<T>, b: set<T>)
    ensures |a + b| <= |a| + |b| && |a| <= |a + b| && |b| <= |a + b|
  {
    assert a + b == a + (b - a);
    assert a + b == b + (a - b);
    assert b == (b - a) + (a * b);
    assert a == (a - b) + (a * b);
  }

  // ----- The derived metrics -----

  datatype Metrics = Metrics(vocabulary: nat, length: nat, volume: real, difficulty: Option<real>, effort: Option<real>)

  function Words(t: Tally): nat {
    |t.operators| + |t.operands|
  }

  function Volume(length: nat, vocabulary: nat, log2: nat -> real): real {
    if vocabulary == 0 then 0.0 else length as real * log2(vocabulary)
  }

  function Effort(difficulty: real, volume: real): real {
    difficulty * volume
  }

  function Difficulty(operators: real, uses: real, operands: real): real
    requires operands != 0.0
  {
    operators / 2.0 * uses / operands
  }

  /** `log2` is a parameter: only its monotonicity is used. */
  function Finish(t: Tally, log2: nat -> real): Metrics {
    var vocabulary, length := Words(t), t.totalOperators + t.totalOperands;
    var volume := Volume(length, vocabulary, log2);
    var difficulty :=
      if length == 0 then Some(0.0)
      else if |t.operands| == 0 then None
      else Some(Difficulty(|t.operators| as real, t.totalOperands as real, |t.operands| as real));
    Metrics(vocabulary, length, volume, difficulty,
            match difficulty { case None => None case Some(d) => Some(Effort(d, volume)) })
  }

  /** Halstead's difficulty is half the distinct operators times the average use of an operand, so at least half the
      distinct operators, and exactly that when no operand is used twice; effort is difficulty times volume. */
  lemma DifficultyMeans(ts: seq<Token>, log2: nat -> real)
    requires Scan(ts).operands != {}
    ensures HalsteadDifficulty(Scan(ts), Finish(Scan(ts), log2))
  {
    DistinctWithinTotal(ts);
    DifficultyOf(Scan(ts), log2);
  }

  predicate HalsteadDifficulty(t: Tally, m: Metrics) {
    var x, n, d := |t.operators| as real, t.totalOperands as real, |t.operands| as real;
    && m.difficulty.Some? && m.effort.Some? && m.effort.value == m.difficulty.value * m.volume
    && m.difficulty.value * (2.0 * d) == x * n
    && m.difficulty.value >= x / 2.0 && (n == d ==> m.difficulty.value == x / 2.0)
  }

  lemma DifficultyOf(t: Tally, log2: nat -> real)
    requires t.operands != {} && WithinTotal(t)
    ensures HalsteadDifficulty(t, Finish(t, log2))
  {
    assert |t.operands| > 0;
    var x, n, d := |t.operators| as real, t.totalOperands as real, |t.operands| as real;
    DividedBack(x, n, d);
    var m := Finish(t, log2);
    assert m.difficulty == Some(Difficulty(x, n, d));
    assert m.effort.value == Effort(m.difficulty.value, m.volume);
  }

  /** Volume counts every use at the bits its choice from the vocabulary takes; an empty scope has neither volume nor
      effort. */
  lemma VolumeMeans(ts: seq<Token>, log2: nat -> real)
    ensures HalsteadVolume(Scan(ts), Finish(Scan(ts), log2), log2)
  {
    DistinctWithinTotal(ts);
    CountedIsNamed(ts);
    VolumeOf(Scan(ts), log2);
  }

  predicate HalsteadVolume(t: Tally, m: Metrics, log2: nat -> real) {
    && m.length == t.totalOperators + t.totalOperands && m.vocabulary == |t.operators| + |t.operands|
    && (m.length > 0 ==> m.vocabulary > 0 && m.volume == m.length as real * log2(m.vocabulary))
    && (m.length == 0 ==> m.vocabulary == 0 && m.volume == 0.0 && m.difficulty == Some(0.0) && m.effort == Some(0.0))
  }

  lemma VolumeOf(t: Tally, log2: nat -> real)
    requires WithinTotal(t) && Named(t)
    ensures HalsteadVolume(t, Finish(t, log2), log2)
  {
  }

  lemma DividedBack(x: real, n: real, d: real)
    requires 0.0 < d <= n && x >= 0.0
    ensures Difficulty(x, n, d) * (2.0 * d) == x * n
    ensures Difficulty(x, n, d) >= x / 2.0 && (n == d ==> Difficulty(x, n, d) == x / 2.0)
  {
    var half := x / 2.0;
    var q := half * n / d;
    Quotient(half * n, d);
    MulMonotone(half, d, n);
    QuotientBelow(half, q, d);
    if n == d { QuotientBelow(q, half, d); }
  }

  lemma Quotient(a: real, d: real)
    requires d > 0.0
    ensures (a / d) * d == a
  {
  }

  lemma QuotientBelow(p: real, q: real, d: real)
    requires d > 0.0 && p * d <= q * d
    ensures p <= q
  {
    if q < p { StrictlyMore(q, p, d); }
  }

  lemma StrictlyMore(q: real, p: real, d: real)
    requires d > 0.0 && q < p
    ensures q * d < p * d
  {
    assert (p - q) * d > 0.0;
  }

  ghost predicate Monotone(log2: nat -> real) {
    log2(1) == 0.0 && forall m: nat, n: nat :: 1 <= m <= n ==> log2(m) <= log2(n)
  }

  /** Joining two scopes where no head is pending adds their lengths, unites their vocabularies, and never
      loses volume; effort is undefined exactly for operators without operands. */
  lemma JoinedMetrics(a: seq<Token>, b: seq<Token>, log2: nat -> real)
    requires !OpenEnd(a) && Monotone(log2)
    ensures var x, y, z := Finish(Scan(a), log2), Finish(Scan(b), log2), Finish(Scan(a + b), log2);
            && z.length == x.length + y.length
            && x.vocabulary <= z.vocabulary && y.vocabulary <= z.vocabulary <= x.vocabulary + y.vocabulary
            && z.volume >= x.volume + y.volume
            && (z.effort == None <==>
                  Scan(a).totalOperands == 0 && Scan(b).totalOperands == 0 && x.length + y.length > 0)
  {
    ScanAdditive(a, b);
    DistinctWithinTotal(a);
    DistinctWithinTotal(b);
    CountedIsNamed(a);
    CountedIsNamed(b);
    TalliesJoined(Scan(a), Scan(b), log2);
  }

  lemma TalliesJoined(s: Tally, t: Tally, log2: nat -> real)
    requires Monotone(log2) && WithinTotal(s) && WithinTotal(t) && Named(s) && Named(t)
    ensures var x, y, z := Finish(s, log2), Finish(t, log2), Finish(Plus(s, t), log2);
            && z.length == x.length + y.length
            && x.vocabulary <= z.vocabulary && y.vocabulary <= z.vocabulary <= x.vocabulary + y.vocabulary
            && z.volume >= x.volume + y.volume
            && (z.effort == None <==> s.totalOperands == 0 && t.totalOperands == 0 && x.length + y.length > 0)
  {
    VocabularyJoined(s, t);
    VolumeJoined(s, t, log2);
    EffortDefined(Plus(s, t), log2);
    NamedPlus(s, t);
    PlusWithinTotal(s, t);
  }

  lemma VocabularyJoined(s: Tally, t: Tally)
    ensures var m, n, k := Words(s), Words(t), Words(Plus(s, t));
            m <= k && n <= k <= m + n
  {
    UnionSize(s.operators, t.operators);
    UnionSize(s.operands, t.operands);
  }

  lemma EffortDefined(t: Tally, log2: nat -> real)
    requires WithinTotal(t) && Named(t)
    ensures Finish(t, log2).effort == None <==> t.totalOperands == 0 && t.totalOperators + t.totalOperands > 0
  {
  }

  lemma VolumeJoined(s: Tally, t: Tally, log2: nat -> real)
    requires Monotone(log2)
    ensures Finish(Plus(s, t), log2).volume >= Finish(s, log2).volume + Finish(t, log2).volume
  {
    VocabularyJoined(s, t);
    var n := Words(Plus(s, t));
    var ls, lt := s.totalOperators + s.totalOperands, t.totalOperators + t.totalOperands;
    VolumeBelow(ls, Words(s), n, log2);
    VolumeBelow(lt, Words(t), n, log2);
    VolumeSum(ls, lt, n, log2);
  }

  lemma VolumeSum(x: nat, y: nat, n: nat, log2: nat -> real)
    ensures Volume(x + y, n, log2) == Volume(x, n, log2) + Volume(y, n, log2)
  {
    if n > 0 {
      Distribute(x as real, y as real, log2(n));
    }
  }

  lemma Distribute(x: real, y: real, k: real)
    ensures (x + y) * k == x * k + y * k
  {
  }

  lemma VolumeBelow(length: nat, m: nat, n: nat, log2: nat -> real)
    requires Monotone(log2) && m <= n
    ensures Volume(length, m, log2) <= Volume(length, n, log2)
  {
    if m > 0 {
      MulMonotone(length as real, log2(m), log2(n));
    } else if n > 0 {
      MulMonotone(length as real, 0.0, log2(n));
    }
  }

  lemma MulMonotone(k: real, x: real, y: real)
    requires k >= 0.0 && x <= y
    ensures k * x <= k * y
  {
  }

  ghost predicate Named(t: Tally) {
    (t.totalOperands > 0 ==> t.operands != {}) && (t.totalOperators > 0 ==> t.operators != {})
  }

  lemma NamedPlus(a: Tally, b: Tally)
    requires Named(a) && Named(b)
    ensures Named(Plus(a, b))
  {
  }

  lemma {:induction false} CountedIsNamed(ts: seq<Token>)
    ensures Named(Scan(ts))
    decreases ts, 1
  {
    if ts != [] {
      HeadNamed(ts);
      CountedIsNamed(ts[Consumed(ts)..]);
      NamedPlus(HeadTally(ts), Scan(ts[Consumed(ts)..]));
    }
  }

  lemma {:induction false} HeadNamed(ts: seq<Token>)
    requires ts != []
    ensures Named(HeadTally(ts))
    decreases ts, 0
  {
    if AttributeEnd(ts) == 0 && ts[0].Group? {
      CountedIsNamed(ts[0].stream);
      NamedPlus(Brackets(ts[0].delimiter), Scan(ts[0].stream));
    }
  }
}
