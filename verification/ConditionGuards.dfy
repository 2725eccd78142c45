/**
 * Parentheses around a bare operand, and the guards that inlining a reusable workflow joins with
 * `(caller) && (called)`, any number of times. A guard that begins or ends with an operand in
 * parentheses, or is one operand, takes the parentheses joining puts around it; this module says what
 * words the joined text has, and ConditionChains what that makes of it.
 */
module ConditionGuards {
  import opened Prelude
  import opened Conditions
  import opened ConditionWords
  import opened ConditionPrinting

  /** The tokens of an operand behind `opens` parentheses and before `closes` of them. */
  function Wrapped(atom: Atom, opens: nat, closes: nat, rest: Tokens): Tokens {
    Repeat(Open, opens) + ([Operand(atom)] + (Repeat(Close, closes) + rest))
  }

  /** However many parentheses close after a wrapped operand, reading it takes them all. */
  lemma AWrappedOperandTakesEveryCloser(atom: Atom, opens: nat, closes: nat, rest: Tokens,
                                        ctx: Context, p: Platform, depth: nat)
    requires opens > 0 && closes > 0 && !Is(rest, Close)
    ensures ReadOperand(Wrapped(atom, opens, closes, rest), ctx, p, depth)
         == if depth + opens > MAX_DEPTH then Refused(TooDeep)
            else Read(AtomValue(atom, ctx), rest, AtomUnread(atom, ctx))
  {
    var tokens := Wrapped(atom, opens, closes, rest);
    AWrappedOperandIsOneWord(atom, opens, closes, rest);
    assert tokens[0] == Op(Open);
    if depth <= MAX_DEPTH { AnOperandByItsWord(tokens, ctx, p, depth); }
  }

  /**
   * An operand wrapped in balanced parentheses inside further closing ones is read as written
   * only when none follow: the remainder should begin with them and never does.
   */
  lemma WrappedOperandsReadAsWrittenOnlyAlone(atom: Atom, opens: nat, outer: nat, rest: Tokens,
                                              ctx: Context, p: Platform, depth: nat)
    requires opens > 0 && !Is(rest, Close) && depth + opens <= MAX_DEPTH
    ensures
      var read := ReadOperand(Wrapped(atom, opens, opens + outer, rest), ctx, p, depth);
      read.Read? && (read.rest == Repeat(Close, outer) + rest <==> outer == 0)
  {
    AWrappedOperandTakesEveryCloser(atom, opens, opens + outer, rest, ctx, p, depth);
    if outer == 0 {
      assert Repeat(Close, 0) + rest == rest;
    } else {
      LeadingRepeat(Close, outer, rest);
      assert |Repeat(Close, outer) + rest| == outer + |rest|;
    }
  }

  /** A parenthesised operand on the left of a comparison inside a group is refused. */
  lemma AGroupedComparisonOfAGroupIsRefused(a: Atom, b: Atom, ctx: Context, p: Platform)
    ensures
      var bare := [Op(Open), Operand(a), Op(Close), Op(EqualOp), Operand(b)];
      && Evaluate(Group(bare), ctx, p) == Err(Unreadable(Op(Close)))
      && Evaluate(bare, ctx, p).Ok?
  {
    var bare := [Op(Open), Operand(a), Op(Close), Op(EqualOp), Operand(b)];
    ComparesWrapped(a, b, 2, [Op(Close)], ctx, p);
    ComparesWrapped(a, b, 1, [], ctx, p);
    assert Repeat(Open, 1) == [Op(Open)] && Repeat(Close, 1) == [Op(Close)];
    assert Repeat(Open, 2) == [Op(Open), Op(Open)];
    assert Group(bare) == Wrapped(a, 2, 1, [Op(EqualOp), Operand(b)] + [Op(Close)]);
    assert bare == Wrapped(a, 1, 1, [Op(EqualOp), Operand(b)] + []);
    OneTerm(Group(bare), ctx, p, 0);
    OneTerm(bare, ctx, p, 0);
  }

  lemma ComparesWrapped(a: Atom, b: Atom, opens: nat, rest: Tokens, ctx: Context, p: Platform)
    requires 0 < opens <= 2 && !Is(rest, AndOp) && !Is(rest, OrOp)
    ensures
      var read := ReadNot(Wrapped(a, opens, 1, [Op(EqualOp), Operand(b)] + rest), ctx, p, 0);
      read.Read? && read.rest == rest
  {
    var after := [Op(EqualOp), Operand(b)] + rest;
    var tokens := Wrapped(a, opens, 1, after);
    AWrappedOperandTakesEveryCloser(a, opens, 1, after, ctx, p, 0);
    assert tokens[0] == Op(Open);
    assert after[1..][0] == Operand(b) && after[1..][1..] == rest;
    assert ReadNot(tokens, ctx, p, 0) == ReadComparison(tokens, ctx, p, 0);
    assert ReadOperand(after[1..], ctx, p, 0).rest == rest;
  }

  lemma OneTerm(tokens: Tokens, ctx: Context, p: Platform, depth: nat)
    requires depth <= MAX_DEPTH
    requires
      var only := ReadNot(tokens, ctx, p, depth);
      only.Read? ==> !Is(only.rest, AndOp) && !Is(only.rest, OrOp)
    ensures ReadOr(tokens, ctx, p, depth) == ReadNot(tokens, ctx, p, depth)
  {
    assert ReadAnd(tokens, ctx, p, depth) == ReadNot(tokens, ctx, p, depth);
  }

  // ---- parentheses before and behind a text ----

  lemma {:induction false} SignsAreWords(op: Operator, n: nat, rest: Tokens)
    requires op != Open
    ensures Condensed(Repeat(op, n) + rest) == Signs(op, n) + Condensed(rest)
  {
    hide Condensed;
    if n > 0 {
      SignsAreWords(op, n - 1, rest);
      ASignFirst(op, Repeat(op, n - 1) + rest);
      assert Repeat(op, n) + rest == [Op(op)] + (Repeat(op, n - 1) + rest);
    } else {
      assert Repeat(op, 0) + rest == rest;
    }
  }

  /** Whether closing parentheses behind these words leave the words as they are. */
  predicate EndsOpenly(words: Words) {
    var n := |words|;
    && n > 0 && words[n - 1] != Sign(Open)
    && (n > 1 && words[n - 1].Held? && words[n - 1].wraps == 0 ==> words[n - 2] != Sign(Open))
  }

  lemma EndsOpenlyBehind(words: Words)
    requires |words| > 1 && EndsOpenly(words)
    ensures EndsOpenly(words[1..])
  {
  }

  /** An opening parenthesis that is a word of its own stays one when closing ones come behind the text. */
  lemma {:induction false} StillNoOperandAhead(tokens: Tokens, behind: Tokens)
    requires !OneOperandAhead(tokens) && EndsOpenly([Sign(Open)] + Condensed(tokens))
    ensures !OneOperandAhead(tokens + behind)
    decreases |tokens|
  {
    var words := [Sign(Open)] + Condensed(tokens);
    assert tokens != [];
    var more := tokens + behind;
    assert more[0] == tokens[0];
    if tokens[0] == Op(Open) {
      SkippingAnOpen(tokens);
      assert more[1..] == tokens[1..] + behind;
      SkippingAnOpen(more);
      EndsOpenlyBehind(words);
      assert words[1..] == [Sign(Open)] + Condensed(tokens[1..]);
      StillNoOperandAhead(tokens[1..], behind);
    } else if tokens[0].Operand? {
      assert Leading(more, Open) == Leading(tokens, Open) == 0;
      if |tokens| == 1 {
        NothingCondenses();
        assert false;
      }
      assert more[1] == tokens[1];
    }
  }

  lemma {:induction false} LeadingInTwo(tokens: Tokens, behind: Tokens, op: Operator)
    ensures Leading(tokens + behind, op)
         == if Leading(tokens, op) == |tokens| then |tokens| + Leading(behind, op) else Leading(tokens, op)
  {
    if Is(tokens, op) {
      LeadingInTwo(tokens[1..], behind, op);
      assert (tokens + behind)[1..] == tokens[1..] + behind;
    } else if tokens == [] {
      assert tokens + behind == behind;
    }
  }

  lemma AheadOfMore(inside: Tokens, behind: Tokens)
    requires OneOperandAhead(inside)
    ensures
      var opens := Leading(inside, Open);
      && OneOperandAhead(inside + behind) && Leading(inside + behind, Open) == opens < |inside|
      && (inside + behind)[opens] == inside[opens] && (inside + behind)[opens + 1..] == inside[opens + 1..] + behind
  {
    LeadingInTwo(inside, behind, Open);
    hide Leading;
  }

  lemma ClosersOfMore(after: Tokens, behind: Tokens)
    ensures (after + behind)[Leading(after + behind, Close)..]
         == if Leading(after, Close) == |after| then behind[Leading(behind, Close)..]
            else after[Leading(after, Close)..] + behind
  {
    LeadingInTwo(after, behind, Close);
    hide Leading;
  }

  /** What comes behind a text is behind its first word too, but for closing parentheses that word takes. */
  lemma FirstOfMore(tokens: Tokens, behind: Tokens)
    requires tokens != [] && EndsOpenly(Condensed(tokens))
    ensures First(tokens + behind) == First(tokens)
    ensures
      Next(tokens + behind)
      == if Next(tokens) == [] && First(tokens).Held? && First(tokens).wraps > 0 then behind[Leading(behind, Close)..]
         else Next(tokens) + behind
  {
    hide OneOperandAhead, Leading, EndsOpenly;
    if tokens[0] == Op(Open) && OneOperandAhead(tokens[1..]) {
      hide Condensed;
      FirstRunOfMore(tokens, behind);
    } else {
      FirstOf(tokens);
      hide Condensed;
      if tokens[0] == Op(Open) { StillNoOperandAhead(tokens[1..], behind); }
      assert (tokens + behind)[1..] == tokens[1..] + behind;
    }
  }

  lemma FirstRunOfMore(tokens: Tokens, behind: Tokens)
    requires tokens != [] && tokens[0] == Op(Open) && OneOperandAhead(tokens[1..])
    ensures First(tokens + behind) == First(tokens) && First(tokens).Held? && First(tokens).wraps > 0
    ensures Next(tokens + behind)
         == if Next(tokens) == [] then behind[Leading(behind, Close)..] else Next(tokens) + behind
  {
    var inside := tokens[1..];
    var after := inside[Leading(inside, Open) + 1..];
    assert (tokens + behind)[1..] == inside + behind;
    hide OneOperandAhead, Leading;
    AheadOfMore(inside, behind);
    ClosersOfMore(after, behind);
  }

  predicate TakesClosers(words: Words) {
    var n := |words|;
    n > 0 && words[n - 1].Held? && words[n - 1].wraps > 0
  }

  // The words of some closing parentheses behind a text that ends as given, and of what follows them.
  function AfterClosers(words: Words, closes: nat, rest: Words): Words {
    (if TakesClosers(words) then [] else Signs(Close, closes)) + rest
  }

  /** Closing parentheses behind a text are words of their own, or its last operand takes them all. */
  lemma {:induction false} ClosersBehind(tokens: Tokens, closes: nat, rest: Tokens)
    requires EndsOpenly(Condensed(tokens)) && !Is(rest, Close)
    ensures
      var words := Condensed(tokens);
      Condensed(tokens + (Repeat(Close, closes) + rest)) == words + AfterClosers(words, closes, Condensed(rest))
    decreases |tokens|
  {
    hide *;
    var behind := Repeat(Close, closes) + rest;
    ATextIsNotEmpty(tokens);
    FirstOfMore(tokens, behind);
    FirstOf(tokens + behind);
    FirstOf(tokens);
    NothingCondenses();
    if Next(tokens) == [] {
      ClosersBehindOneWord(First(tokens), closes, rest);
      assert [] + behind == behind;
      assert Condensed(tokens) == [First(tokens)];
    } else {
      ClosersStep(tokens);
      ClosersBehind(Next(tokens), closes, rest);
      SameClosers(Condensed(tokens), Condensed(Next(tokens)), closes, Condensed(rest));
      Prepend(First(tokens), Condensed(Next(tokens)), AfterClosers(Condensed(tokens), closes, Condensed(rest)));
    }
  }

  lemma ATextIsNotEmpty(tokens: Tokens)
    requires EndsOpenly(Condensed(tokens))
    ensures tokens != []
  {
  }

  lemma SameClosers(words: Words, others: Words, closes: nat, rest: Words)
    requires TakesClosers(words) == TakesClosers(others)
    ensures AfterClosers(words, closes, rest) == AfterClosers(others, closes, rest)
  {
  }

  lemma ClosersBehindOneWord(word: Word, closes: nat, rest: Tokens)
    requires !Is(rest, Close)
    ensures
      var behind := Repeat(Close, closes) + rest;
      AfterClosers([word], closes, Condensed(rest))
      == if word.Held? && word.wraps > 0 then Condensed(behind[Leading(behind, Close)..]) else Condensed(behind)
  {
    LeadingRepeat(Close, closes, rest);
    SignsAreWords(Close, closes, rest);
    hide Condensed, Leading, Repeat, Signs;
    assert [] + Condensed(rest) == Condensed(rest);
  }

  lemma ClosersStep(tokens: Tokens)
    requires tokens != [] && Next(tokens) != [] && EndsOpenly(Condensed(tokens))
    ensures EndsOpenly(Condensed(Next(tokens)))
    ensures TakesClosers(Condensed(tokens)) == TakesClosers(Condensed(Next(tokens)))
  {
    FirstOf(tokens);
    FirstOf(Next(tokens));
    hide Condensed, First, Next;
    EndsOpenlyBehind(Condensed(tokens));
    assert Condensed(tokens)[1..] == Condensed(Next(tokens));
  }

  lemma Prepend(word: Word, words: Words, more: Words)
    ensures [word] + (words + more) == [word] + words + more
  {
  }

  lemma NothingCondenses()
    ensures Condensed([]) == []
  {
  }

  lemma FirstOf(tokens: Tokens)
    requires tokens != []
    ensures Condensed(tokens) == [First(tokens)] + Condensed(Next(tokens))
  {
  }

  function RaisedWord(word: Word, opens: nat): Word {
    match word
    case Sign(_) => word
    case Held(atom, wraps) => Held(atom, wraps + opens)
  }

  lemma OneMoreOpen(tokens: Tokens)
    requires tokens != []
    ensures
      var more := [Op(Open)] + tokens;
      if OneOperandAhead(tokens) then
        && First(more) == RaisedWord(First(tokens), 1) && First(tokens).Held? && OneOperandAhead(more)
        && Next(more) == if tokens[0] == Op(Open) then Next(tokens) else Next(tokens)[Leading(Next(tokens), Close)..]
      else First(more) == Sign(Open) && Next(more) == tokens && !OneOperandAhead(more)
  {
    var more := [Op(Open)] + tokens;
    assert more[1..] == tokens;
    SkippingAnOpen(more);
    hide OneOperandAhead;
    if tokens[0] == Op(Open) {
      SkippingAnOpen(tokens);
      OpensMore(tokens);
    } else if OneOperandAhead(tokens) {
      OperandAtOnce(tokens);
    }
  }

  lemma OpensMore(tokens: Tokens)
    requires Is(tokens, Open)
    ensures
      var opens := Leading(tokens[1..], Open);
      && Leading(tokens, Open) == 1 + opens && (opens < |tokens| - 1 ==> tokens[1 + opens] == tokens[1..][opens])
      && (opens < |tokens| - 1 ==> tokens[opens + 2..] == tokens[1..][opens + 1..])
  {
  }

  lemma OperandAtOnce(tokens: Tokens)
    requires tokens != [] && tokens[0] != Op(Open) && OneOperandAhead(tokens)
    ensures Leading(tokens, Open) == 0 && tokens[0].Operand?
  {
  }

  /** Opening parentheses before a text are words of their own, or its first operand takes them all. */
  lemma {:induction false} OpensBefore(tokens: Tokens, opens: nat)
    requires tokens != [] && opens > 0 && !OneOperandAhead(tokens)
    ensures
      var more := Repeat(Open, opens) + tokens;
      Condensed(more) == Signs(Open, opens) + Condensed(tokens) && !OneOperandAhead(more)
    decreases opens
  {
    hide *;
    OneFewer(Open, opens, tokens);
    var fewer := if opens == 1 then tokens else Repeat(Open, opens - 1) + tokens;
    if opens > 1 {
      OpensBefore(tokens, opens - 1);
      Prepend(Sign(Open), Signs(Open, opens - 1), Condensed(tokens));
    }
    FirstOf([Op(Open)] + fewer);
    OneMoreOpen(fewer);
  }

  lemma {:induction false} OpensBeforeAnOperand(tokens: Tokens, opens: nat)
    requires tokens != [] && opens > 0 && OneOperandAhead(tokens)
    ensures
      var more := Repeat(Open, opens) + tokens;
      && more != [] && more[0] == Op(Open) && OneOperandAhead(more)
      && First(tokens).Held? && First(more) == RaisedWord(First(tokens), opens)
      && Next(more) == if tokens[0] == Op(Open) then Next(tokens) else Next(tokens)[Leading(Next(tokens), Close)..]
    decreases opens
  {
    hide *;
    OneFewer(Open, opens, tokens);
    var fewer := if opens == 1 then tokens else Repeat(Open, opens - 1) + tokens;
    if opens > 1 {
      OpensBeforeAnOperand(tokens, opens - 1);
      RaisedTwice(First(tokens), opens - 1);
    }
    OneMoreOpen(fewer);
  }

  lemma RaisedTwice(word: Word, opens: nat)
    ensures RaisedWord(RaisedWord(word, opens), 1) == RaisedWord(word, opens + 1)
  {
  }

  // ---- a guard in its place ----

  /** Whether a guard with these words takes the parentheses opened before it. */
  predicate TakesOpens(words: Words) {
    words != [] && words[0].Held? && (|words| == 1 || words[0].wraps > 0)
  }

  /** Whether it takes the parentheses closed behind it, when some were opened before it. */
  predicate TakesCloses(words: Words) {
    var n := |words|;
    n > 0 && words[n - 1].Held? && (n == 1 || words[n - 1].wraps > 0)
  }

  // A tree between the parentheses left around it.
  datatype Item = Item(opens: nat, tree: Expr, closes: nat)

  /** The tree with that many more parentheses around its first operand. */
  function Raised(e: Expr, opens: nat): Expr {
    match e
    case Leaf(atom, wraps) => Leaf(atom, wraps + opens)
    case Cmp(equal, left, right) => Cmp(equal, Raised(left, opens), right)
    case And(left, right) => And(Raised(left, opens), right)
    case Or(left, right) => Or(Raised(left, opens), right)
    case Not(_) => e
    case Paren(_) => e
  }

  /** What becomes of a guard that joining puts between parentheses. */
  function Placed(e: Expr, opens: nat, closes: nat): Item {
    var words := Print(e, 0);
    Item(if TakesOpens(words) then 0 else opens,
         if TakesOpens(words) then Raised(e, opens) else e,
         if TakesCloses(words) then 0 else closes)
  }

  function ItemWords(item: Item): Words {
    Signs(Open, item.opens) + Print(item.tree, 0) + Signs(Close, item.closes)
  }

  lemma {:induction false} RaisedPrints(e: Expr, opens: nat, level: nat)
    requires level <= 4 && Print(e, level) != [] && Print(e, level)[0].Held?
    ensures
      var words := Print(e, level);
      Print(Raised(e, opens), level) == [RaisedWord(words[0], opens)] + words[1..]
    decreases e
  {
    match e
    case Leaf(_, _) =>
    case Not(_) =>
    case Paren(_) =>
    case Cmp(_, left, _) =>
      Edges(left, 4);
      RaisedPrints(left, opens, 4);
    case And(left, _) =>
      Edges(left, 1);
      RaisedPrints(left, opens, 1);
    case Or(left, _) =>
      Edges(left, 0);
      RaisedPrints(left, opens, 0);
  }

  lemma {:induction false} RaisedMeansTheSame(e: Expr, opens: nat, ctx: Context, p: Platform)
    ensures Verdict(Raised(e, opens), ctx, p) == Verdict(e, ctx, p)
    ensures Compared(Raised(e, opens), ctx, p) == Compared(e, ctx, p)
    ensures Lacking(Raised(e, opens), ctx) == Lacking(e, ctx)
  {
    match e
    case Leaf(_, _) =>
    case Not(_) =>
    case Paren(_) =>
    case Cmp(_, left, _) => RaisedMeansTheSame(left, opens, ctx, p);
    case And(left, _) => RaisedMeansTheSame(left, opens, ctx, p);
    case Or(left, _) => RaisedMeansTheSame(left, opens, ctx, p);
  }

  // A guard between parentheses with something behind them has the words of its place.
  ghost predicate StandsAs(guard: Tokens, e: Expr, opens: nat, closes: nat, rest: Tokens) {
    Condensed(Repeat(Open, opens) + (guard + (Repeat(Close, closes) + rest)))
    == ItemWords(Placed(e, opens, closes)) + Condensed(rest)
  }

  lemma EdgesEndOpenly(words: Words)
    requires HasEdges(words)
    ensures EndsOpenly(words)
    ensures !TakesOpens(words) || words[0].wraps > 0 ==> TakesClosers(words) == TakesCloses(words)
  {
  }

  /** A guard's words are its tree's, in one of three places that joining can put them. */
  lemma AGuardInItsPlace(guard: Tokens, e: Expr, opens: nat, closes: nat, rest: Tokens)
    requires Condensed(guard) == Print(e, 0) && opens > 0 && closes > 0 && !Is(rest, Close)
    ensures StandsAs(guard, e, opens, closes, rest)
  {
    var words := Print(e, 0);
    Edges(e, 0);
    hide *;
    if !TakesOpens(words) {
      AGuardBehindItsOpens(guard, e, opens, closes, rest);
    } else if words[0].wraps > 0 {
      AGuardThatTakesItsOpens(guard, e, opens, closes, rest);
    } else {
      AnOperandAlone(guard, e, opens, closes, rest);
    }
  }

  lemma AGuardBehindItsOpens(guard: Tokens, e: Expr, opens: nat, closes: nat, rest: Tokens)
    requires Condensed(guard) == Print(e, 0) && opens > 0 && closes > 0 && !Is(rest, Close)
    requires HasEdges(Print(e, 0)) && !TakesOpens(Print(e, 0))
    ensures StandsAs(guard, e, opens, closes, rest)
  {
    var words := Print(e, 0);
    var behind := Repeat(Close, closes) + rest;
    EdgesEndOpenly(words);
    ClosersBehind(guard, closes, rest);
    NothingToTake(guard, behind);
    hide Condensed, OneOperandAhead, Repeat, Print, Signs, HasEdges, TakesCloses, TakesClosers;
    OpensBefore(guard + behind, opens);
    var closers := if TakesCloses(words) then [] else Signs(Close, closes);
    FourParts(Signs(Open, opens), words, closers, Condensed(rest));
    assert Signs(Close, 0) == [] by { EmptySigns(); }
  }

  lemma EmptySigns()
    ensures Signs(Open, 0) == [] && Signs(Close, 0) == []
  {
  }

  lemma FourParts(a: Words, b: Words, c: Words, d: Words)
    ensures a + (b + (c + d)) == a + b + c + d
  {
  }

  lemma NothingToTake(guard: Tokens, behind: Tokens)
    requires HasEdges(Condensed(guard)) && !TakesOpens(Condensed(guard))
    ensures guard + behind != [] && !OneOperandAhead(guard + behind)
  {
    EdgesEndOpenly(Condensed(guard));
    ATextIsNotEmpty(guard);
    FirstOf(guard);
    FirstByItsToken(guard);
    hide Condensed, OneOperandAhead, Leading, First, Next;
    if guard[0].Operand? {
      assert Condensed(guard)[1..] == Condensed(guard[1..]);
      FirstOfTheRest(guard);
      NotAhead(guard, behind);
    } else if guard[0] == Op(Open) {
      NothingInside(guard, behind);
    } else {
      NotAhead(guard, behind);
    }
  }

  lemma FirstByItsToken(guard: Tokens)
    requires guard != []
    ensures guard[0].Operand? ==> First(guard) == Held(guard[0].atom, 0) && Next(guard) == guard[1..]
    ensures guard[0] == Op(Open) && (First(guard).Held? ==> First(guard).wraps == 0) ==>
              First(guard) == Sign(Open) && Next(guard) == guard[1..] && !OneOperandAhead(guard[1..])
  {
    hide OneOperandAhead, Leading;
  }

  lemma NothingInside(guard: Tokens, behind: Tokens)
    requires guard != [] && guard[0] == Op(Open) && !OneOperandAhead(guard[1..])
    requires EndsOpenly([Sign(Open)] + Condensed(guard[1..]))
    ensures !OneOperandAhead(guard + behind)
  {
    hide *;
    StillNoOperandAhead(guard[1..], behind);
    var more := guard + behind;
    assert more[1..] == guard[1..] + behind;
    assert Is(more, Open) by { ItOpens(more); }
    SkippingAnOpen(more);
  }

  lemma ItOpens(tokens: Tokens)
    requires tokens != [] && tokens[0] == Op(Open)
    ensures Is(tokens, Open)
  {
  }

  lemma FirstOfTheRest(guard: Tokens)
    requires guard != [] && Condensed(guard[1..]) != [] && Condensed(guard[1..])[0] != Sign(Close)
    ensures |guard| > 1 && guard[1] != Op(Close)
  {
    assert guard[1..] != [];
    ASignIsAWord(guard[1..], Close);
  }

  lemma NotAhead(guard: Tokens, behind: Tokens)
    requires guard != [] && guard[0] != Op(Open)
    requires guard[0].Operand? ==> |guard| > 1 && guard[1] != Op(Close)
    ensures !OneOperandAhead(guard + behind)
  {
    var more := guard + behind;
    assert more[0] == guard[0] && (|guard| > 1 ==> more[1] == guard[1]);
    assert Leading(more, Open) == 0;
  }

  lemma AGuardThatTakesItsOpens(guard: Tokens, e: Expr, opens: nat, closes: nat, rest: Tokens)
    requires Condensed(guard) == Print(e, 0) && opens > 0 && closes > 0 && !Is(rest, Close)
    requires HasEdges(Print(e, 0)) && Print(e, 0)[0].Held? && Print(e, 0)[0].wraps > 0
    ensures StandsAs(guard, e, opens, closes, rest)
  {
    var words := Print(e, 0);
    var more := guard + (Repeat(Close, closes) + rest);
    var closers := if TakesCloses(words) then [] else Signs(Close, closes);
    EdgesEndOpenly(words);
    ClosersBehind(guard, closes, rest);
    AHeldGuardOpens(guard, words);
    ARunToTake(guard, Repeat(Close, closes) + rest);
    RaisedItemWords(e, opens, closes);
    assert AfterClosers(words, closes, Condensed(rest)) == closers + Condensed(rest);
    hide *;
    FirstOf(more);
    OpensBeforeAnOperand(more, opens);
    FirstOf(Repeat(Open, opens) + more);
    HeadAndTail(First(more), Condensed(Next(more)), words, closers + Condensed(rest));
    FourParts([RaisedWord(words[0], opens)], words[1..], closers, Condensed(rest));
  }

  lemma HeadAndTail(word: Word, more: Words, words: Words, behind: Words)
    requires words != [] && [word] + more == words + behind
    ensures word == words[0] && more == words[1..] + behind
  {
    var all := words + behind;
    assert all[0] == word && all[0] == words[0];
    assert all[1..] == more && all[1..] == words[1..] + behind;
  }

  lemma RaisedItemWords(e: Expr, opens: nat, closes: nat)
    requires TakesOpens(Print(e, 0))
    ensures
      var words := Print(e, 0);
      ItemWords(Placed(e, opens, closes))
      == [RaisedWord(words[0], opens)] + words[1..] + if TakesCloses(words) then [] else Signs(Close, closes)
  {
    RaisedPrints(e, opens, 0);
    EmptySigns();
    hide Print, TakesOpens, TakesCloses, Signs;
  }

  lemma AHeldGuardOpens(guard: Tokens, words: Words)
    requires Condensed(guard) == words && words != [] && words[0].Held? && words[0].wraps > 0
    ensures guard != [] && First(guard).Held? && First(guard).wraps > 0
  {
  }

  lemma ARunToTake(guard: Tokens, behind: Tokens)
    requires guard != [] && First(guard).Held? && First(guard).wraps > 0
    ensures guard + behind != [] && (guard + behind)[0] == Op(Open) && OneOperandAhead(guard + behind)
  {
    var more := guard + behind;
    hide Leading, Condensed;
    AheadOfMore(guard[1..], behind);
    assert more[1..] == guard[1..] + behind;
    hide OneOperandAhead;
    SkippingAnOpen(more);
  }

  lemma AnOperandAlone(guard: Tokens, e: Expr, opens: nat, closes: nat, rest: Tokens)
    requires Condensed(guard) == Print(e, 0) && opens > 0 && closes > 0 && !Is(rest, Close)
    requires |Print(e, 0)| == 1 && Print(e, 0)[0].Held? && Print(e, 0)[0].wraps == 0
    ensures StandsAs(guard, e, opens, closes, rest)
  {
    var words := Print(e, 0);
    var atom := words[0].atom;
    OneWordOfText(guard, atom);
    RaisedItemWords(e, opens, closes);
    assert TakesCloses(words) && words[1..] == [] && words[0] == Held(atom, 0);
    assert ItemWords(Placed(e, opens, closes)) == [Held(atom, opens)];
    AWrappedOperandIsOneWord(atom, opens, closes, rest);
    OneFewer(Open, opens, [Operand(atom)] + (Repeat(Close, closes) + rest));
    hide *;
    FirstOf(Repeat(Open, opens) + ([Operand(atom)] + (Repeat(Close, closes) + rest)));
  }

  lemma OneWordOfText(guard: Tokens, atom: Atom)
    requires Condensed(guard) == [Held(atom, 0)]
    ensures guard == [Operand(atom)]
  {
    FirstOf(guard);
    HeadAndTail(First(guard), Condensed(Next(guard)), [Held(atom, 0)], []);
    NothingIsLeft(Next(guard));
    assert guard[0].Operand?;
    hide Condensed, Leading, OneOperandAhead;
    assert guard == [guard[0]] + guard[1..];
  }

  // ---- the text of a chain ----

  /** How inlining joins a caller's guard to a called job's. */
  function Combined(caller: Tokens, called: Tokens): Tokens {
    Group(caller) + [Op(AndOp)] + Group(called)
  }

  /** The text of a chain of guards, the outermost first. */
  function Chain(guards: seq<Tokens>): Tokens
    requires guards != []
  {
    if |guards| == 1 then guards[0] else Combined(guards[0], Chain(guards[1..]))
  }

  /** Whether each text has the words of its tree, and so is read as it wherever the descent has room. */
  ghost predicate AreTextsOf(guards: seq<Tokens>, es: seq<Expr>) {
    |guards| == |es| && forall i | 0 <= i < |es| :: Condensed(guards[i]) == Print(es[i], 0)
  }

  /** The places of the guards below the outermost, before some more closing parentheses. */
  function Inner(es: seq<Expr>, extra: nat): (items: seq<Item>)
    requires es != []
    ensures |items| == |es|
  {
    if |es| == 1 then [Placed(es[0], 1, 1 + extra)] else [Placed(es[0], 2, 1)] + Inner(es[1..], extra + 1)
  }

  function Places(es: seq<Expr>): (items: seq<Item>)
    requires |es| >= 2
    ensures |items| == |es|
  {
    [Placed(es[0], 1, 1)] + Inner(es[1..], 0)
  }

  function Joined(items: seq<Item>): Words
    requires items != []
  {
    ItemWords(items[0]) + if |items| == 1 then [] else [Sign(AndOp)] + Joined(items[1..])
  }

  /** A chain in parentheses, before some more closing ones. */
  function Nested(guards: seq<Tokens>, extra: nat): Tokens
    requires guards != []
  {
    Group(Chain(guards)) + Repeat(Close, extra)
  }

  lemma NestedOne(guard: Tokens, extra: nat)
    ensures Nested([guard], extra) == Repeat(Open, 1) + (guard + (Repeat(Close, 1 + extra) + []))
  {
    assert Repeat(Open, 1) == [Op(Open)];
    assert Repeat(Close, 1 + extra) == [Op(Close)] + Repeat(Close, extra);
  }

  lemma NestedMore(guard: Tokens, more: seq<Tokens>, extra: nat)
    requires more != []
    ensures Nested([guard] + more, extra)
         == Repeat(Open, 2) + (guard + (Repeat(Close, 1) + ([Op(AndOp)] + Nested(more, extra + 1))))
  {
    assert ([guard] + more)[1..] == more;
    assert Repeat(Open, 2) == [Op(Open), Op(Open)] && Repeat(Close, 1) == [Op(Close)];
    assert Repeat(Close, extra + 1) == [Op(Close)] + Repeat(Close, extra);
    hide Chain, Repeat;
  }

  lemma JoinedMore(item: Item, items: seq<Item>)
    requires items != []
    ensures Joined([item] + items) == ItemWords(item) + ([Sign(AndOp)] + Joined(items))
    ensures Joined([item]) == ItemWords(item)
  {
    assert ([item] + items)[1..] == items;
    hide ItemWords;
    assert ItemWords(item) + [] == ItemWords(item);
  }

  /** The words of a nested chain are its guards in their places. */
  lemma {:induction false} NestedWords(guards: seq<Tokens>, es: seq<Expr>, extra: nat)
    requires guards != [] && AreTextsOf(guards, es)
    ensures Condensed(Nested(guards, extra)) == Joined(Inner(es, extra))
    decreases |guards|
  {
    var more := guards[1..];
    assert guards == [guards[0]] + more;
    if |guards| == 1 {
      LastWords(guards[0], es[0], extra);
      assert Inner(es, extra) == [Placed(es[0], 1, 1 + extra)];
    } else {
      assert Inner(es, extra) == [Placed(es[0], 2, 1)] + Inner(es[1..], extra + 1);
      assert Condensed(guards[0]) == Print(es[0], 0) && AreTextsOf(more, es[1..]);
      hide *;
      NestedWords(more, es[1..], extra + 1);
      FirstOfTheNested(guards[0], es[0], more, Inner(es[1..], extra + 1), extra);
    }
  }

  lemma FirstOfTheNested(guard: Tokens, e: Expr, more: seq<Tokens>, rest: seq<Item>, extra: nat)
    requires Condensed(guard) == Print(e, 0) && more != [] && rest != []
    requires Condensed(Nested(more, extra + 1)) == Joined(rest)
    ensures Condensed(Nested([guard] + more, extra)) == Joined([Placed(e, 2, 1)] + rest)
  {
    AGuardInItsPlace(guard, e, 2, 1, [Op(AndOp)] + Nested(more, extra + 1));
    hide Condensed, Nested, Joined, Placed, ItemWords, Repeat, Print;
    ASignFirst(AndOp, Nested(more, extra + 1));
    NestedMore(guard, more, extra);
    JoinedMore(Placed(e, 2, 1), rest);
  }

  lemma LastWords(guard: Tokens, e: Expr, extra: nat)
    requires Condensed(guard) == Print(e, 0)
    ensures Condensed(Nested([guard], extra)) == Joined([Placed(e, 1, 1 + extra)])
  {
    NestedOne(guard, extra);
    AGuardInItsPlace(guard, e, 1, 1 + extra, []);
    NothingCondenses();
    JoinedMore(Placed(e, 1, 1 + extra), [Placed(e, 1, 1)]);
    hide Condensed, Repeat, Nested, ItemWords, Placed, Joined;
    var words := ItemWords(Placed(e, 1, 1 + extra));
    assert words + [] == words;
  }

  lemma ChainWords(guards: seq<Tokens>, es: seq<Expr>)
    requires |guards| >= 2 && AreTextsOf(guards, es)
    ensures Condensed(Chain(guards)) == Joined(Places(es))
  {
    var more := guards[1..];
    assert guards == [guards[0]] + more;
    assert Places(es) == [Placed(es[0], 1, 1)] + Inner(es[1..], 0);
    assert Condensed(guards[0]) == Print(es[0], 0) && AreTextsOf(more, es[1..]);
    hide *;
    NestedWords(more, es[1..], 0);
    FirstOfTheChain(guards[0], es[0], more, Inner(es[1..], 0));
  }

  lemma FirstOfTheChain(guard: Tokens, e: Expr, more: seq<Tokens>, rest: seq<Item>)
    requires Condensed(guard) == Print(e, 0) && more != [] && rest != [] && Condensed(Nested(more, 0)) == Joined(rest)
    ensures Condensed(Chain([guard] + more)) == Joined([Placed(e, 1, 1)] + rest)
  {
    AGuardInItsPlace(guard, e, 1, 1, [Op(AndOp)] + Nested(more, 0));
    hide Condensed, Chain, Nested, Joined, Placed, ItemWords, Repeat, Print;
    ASignFirst(AndOp, Nested(more, 0));
    ChainAsNested(guard, more);
    JoinedMore(Placed(e, 1, 1), rest);
  }

  lemma ChainAsNested(guard: Tokens, more: seq<Tokens>)
    requires more != []
    ensures Chain([guard] + more) == Repeat(Open, 1) + (guard + (Repeat(Close, 1) + ([Op(AndOp)] + Nested(more, 0))))
  {
    assert ([guard] + more)[1..] == more;
    assert Repeat(Open, 1) == [Op(Open)] && Repeat(Close, 1) == [Op(Close)] && Repeat(Close, 0) == [];
    hide Repeat;
    assert Nested(more, 0) == Group(Chain(more));
  }
}
