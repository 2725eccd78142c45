/**
 * Condition trees, the words they are written in, and what reading a text made of those words gives
 * back. The trees hold every group a text may have, so each text the reader accepts is one of them.
 */
module ConditionPrinting {
  import opened Prelude
  import opened Conditions
  import opened ConditionWords

  datatype Expr =
    | Leaf(atom: Atom, wraps: nat)
    | Cmp(equal: bool, left: Expr, right: Expr)
    | Not(inner: Expr)
    | And(left: Expr, right: Expr)
    | Or(left: Expr, right: Expr)
    | Paren(inner: Expr)

  /** How tightly a tree binds: `||` least, then `&&`, `!`, a comparison, and an operand or a group. */
  function Binding(e: Expr): nat {
    match e
    case Or(_, _) => 0
    case And(_, _) => 1
    case Not(_) => 2
    case Cmp(_, _, _) => 3
    case Leaf(_, _) => 4
    case Paren(_) => 4
  }

  function Bare(e: Expr): Words
    decreases e, 0
  {
    match e
    case Leaf(atom, wraps) => [Held(atom, wraps)]
    case Cmp(equal, left, right) => Print(left, 4) + [Sign(if equal then EqualOp else DiffersOp)] + Print(right, 4)
    case Not(inner) => [Sign(NotOp)] + Print(inner, 2)
    case And(left, right) => Print(left, 1) + [Sign(AndOp)] + Print(right, 2)
    case Or(left, right) => Print(left, 0) + [Sign(OrOp)] + Print(right, 1)
    case Paren(inner) => Grouped(Print(inner, 0))
  }

  /** The words of a tree where something at least as tight as `level` is wanted. */
  function Print(e: Expr, level: nat): Words
    decreases e, 1
  {
    if Binding(e) >= level then Bare(e) else Grouped(Bare(e))
  }

  function Grouped(words: Words): Words {
    [Sign(Open)] + words + [Sign(Close)]
  }

  // ---- the meaning of a tree, without any text ----

  function Verdict(e: Expr, ctx: Context, p: Platform): Option<bool>
    decreases e, 0
  {
    match e
    case Leaf(atom, _) => Truth(AtomValue(atom, ctx))
    case Cmp(equal, left, right) => Comparison(equal, Compared(left, ctx, p), Compared(right, ctx, p), p)
    case Not(inner) => Opposite(Verdict(inner, ctx, p))
    case And(left, right) => Both(Verdict(left, ctx, p), Verdict(right, ctx, p))
    case Or(left, right) => AnyOf(Verdict(left, ctx, p), Verdict(right, ctx, p))
    case Paren(inner) => Verdict(inner, ctx, p)
  }

  /** What a comparison sees: an operand's own value, or a sub-condition's verdict. */
  function Compared(e: Expr, ctx: Context, p: Platform): Value
    decreases e, 1
  {
    if e.Leaf? then AtomValue(e.atom, ctx) else AsValue(Verdict(e, ctx, p))
  }

  /** The number a value is read as beside one of another kind, if it is read as one. */
  function Reading(v: Value, p: Platform): Option<Float> {
    match v
    case Unread => None
    case Text(text) => if p.number(text) == Some(NaN) then None else p.number(text)
    case Flag(flag) => Some(Finite(if flag then 1.0 else 0.0))
    case Number(value) => Some(Finite(value))
  }

  /** Whether two known values are the same: as text, flag or number, or as the numbers they are read as. */
  predicate Same(a: Value, b: Value, p: Platform) {
    match (a, b)
    case (Text(s), Text(t)) => p.fold(s) == p.fold(t)
    case (Flag(x), Flag(y)) => x <==> y
    case (Number(x), Number(y)) => x == y
    case _ => Reading(a, p).Some? && Reading(a, p) == Reading(b, p)
  }

  function Comparison(equal: bool, a: Value, b: Value, p: Platform): Option<bool> {
    match (a, b)
    case (Unread, _) => None
    case (_, Unread) => None
    case _ => Some(if equal then Same(a, b, p) else !Same(a, b, p))
  }

  /** The reader's comparison is this one. */
  lemma ComparesTheSame(equal: bool, a: Value, b: Value, p: Platform)
    ensures Compare(equal, a, b, p) == Comparison(equal, a, b, p)
  {
  }

  // Kleene's negation, conjunction and disjunction.
  function Opposite(a: Option<bool>): Option<bool> {
    match a
    case None => None
    case Some(x) => Some(!x)
  }

  function Both(a: Option<bool>, b: Option<bool>): Option<bool> {
    match (a, b)
    case (Some(x), Some(y)) => Some(x && y)
    case (Some(false), None) => Some(false)
    case (None, Some(false)) => Some(false)
    case _ => None
  }

  function AnyOf(a: Option<bool>, b: Option<bool>): Option<bool> {
    match (a, b)
    case (Some(x), Some(y)) => Some(x || y)
    case (Some(true), None) => Some(true)
    case (None, Some(true)) => Some(true)
    case _ => None
  }

  function Lacking(e: Expr, ctx: Context): set<string> {
    match e
    case Leaf(atom, _) => AtomUnread(atom, ctx)
    case Cmp(_, left, right) => Lacking(left, ctx) + Lacking(right, ctx)
    case Not(inner) => Lacking(inner, ctx)
    case And(left, right) => Lacking(left, ctx) + Lacking(right, ctx)
    case Or(left, right) => Lacking(left, ctx) + Lacking(right, ctx)
    case Paren(inner) => Lacking(inner, ctx)
  }

  function Max(a: nat, b: nat): nat {
    if a < b then b else a
  }

  /** How deep the descent goes for a tree at a level: one for each parenthesis and each `!` it is under. */
  function Nest(e: Expr, level: nat): nat
    decreases e, 1
  {
    if Binding(e) >= level then BareNest(e) else 1 + BareNest(e)
  }

  function BareNest(e: Expr): nat
    decreases e, 0
  {
    match e
    case Leaf(_, wraps) => wraps
    case Cmp(_, left, right) => Max(Nest(left, 4), Nest(right, 4))
    case Not(inner) => 1 + Nest(inner, 2)
    case And(left, right) => Max(Nest(left, 1), Nest(right, 2))
    case Or(left, right) => Max(Nest(left, 0), Nest(right, 1))
    case Paren(inner) => 1 + Nest(inner, 0)
  }

  // ---- the words at the start of a text ----

  /** Whether the text starts with the words. */
  predicate Starts(words: Words, tokens: Tokens) {
    words <= Condensed(tokens)
  }

  lemma StartsInTwo(first: Words, second: Words, tokens: Tokens)
    ensures Starts(first + second, tokens) <==> Starts(first, tokens) && Starts(second, Skip(tokens, |first|))
    ensures Skip(tokens, |first + second|) == Skip(Skip(tokens, |first|), |second|)
  {
    SkipTwice(tokens, |first|, |second|);
    PrefixInTwo(first, second, Condensed(tokens));
    hide Condensed, Skip;
    if Starts(first, tokens) { WordsAfter(tokens, |first|); }
  }

  lemma PrefixInTwo(first: Words, second: Words, all: Words)
    ensures first + second <= all <==> first <= all && second <= all[|first|..]
  {
    if first <= all && second <= all[|first|..] {
      assert all == first + (second + all[|first|..][|second|..]);
      assert all == first + second + all[|first|..][|second|..];
    }
  }

  /** A text that starts with a sign and some words. */
  lemma StartsWithASign(op: Operator, words: Words, tokens: Tokens)
    requires Starts([Sign(op)] + words, tokens)
    ensures tokens != [] && First(tokens) == Sign(op) && tokens[0] == Op(op) && Next(tokens) == tokens[1..]
    ensures Starts(words, tokens[1..]) && Skip(tokens, |[Sign(op)] + words|) == Skip(tokens[1..], |words|)
  {
    StartsInTwo([Sign(op)], words, tokens);
    assert Condensed(tokens)[0] == Sign(op);
    assert Skip(tokens, 1) == Next(tokens);
  }

  /** A text that starts with two parts and a sign between them. */
  lemma StartsInThree(left: Words, op: Operator, right: Words, tokens: Tokens)
    requires op != Open
    ensures
      var rest := Skip(tokens, |left|);
      && (Starts(left + [Sign(op)] + right, tokens)
          <==> Starts(left, tokens) && Is(rest, op) && Starts(right, rest[1..]))
      && (Is(rest, op) ==> Skip(tokens, |left + [Sign(op)] + right|) == Skip(rest[1..], |right|))
  {
    var rest := Skip(tokens, |left|);
    StartsInTwo(left, [Sign(op)] + right, tokens);
    StartsInTwo([Sign(op)], right, rest);
    ASignIsAWord(rest, op);
    assert left + [Sign(op)] + right == left + ([Sign(op)] + right);
    assert Skip(rest, 1) == if rest == [] then rest else Next(rest);
    hide Skip, First, Next;
  }

  // ---- a text that starts with a tree's words is read as the tree ----

  /** The steps a reading takes through one tree: its own level first, a group around it last. */
  ghost function Rank(e: Expr, level: nat): nat
    requires level <= 4
  {
    if Binding(e) >= level then Binding(e) - level else 14 - level
  }

  ghost predicate NoComparison(rest: Tokens) {
    !Is(rest, EqualOp) && !Is(rest, DiffersOp)
  }

  lemma {:induction false} ReadsOperand(e: Expr, tokens: Tokens, ctx: Context, p: Platform, depth: nat)
    requires Starts(Print(e, 4), tokens)
    ensures ReadOperand(tokens, ctx, p, depth)
         == if depth + Nest(e, 4) > MAX_DEPTH then Refused(TooDeep)
            else Read(Compared(e, ctx, p), Skip(tokens, |Print(e, 4)|), Lacking(e, ctx))
    decreases e, Rank(e, 4)
  {
    hide Condensed, First, Next, ReadOperand, ReadOr, OneOperandAhead;
    if depth > MAX_DEPTH {
      TooDeepForAnOperand(tokens, ctx, p, depth);
    } else if e.Leaf? {
      AnOperandOfOneWord(e.atom, e.wraps, tokens, ctx, p, depth);
    } else {
      var inner := if e.Paren? then e.inner else e;
      assert Print(e, 4) == Grouped(Print(inner, 0));
      InsideAGroup(Print(inner, 0), tokens);
      ReadsOr(inner, tokens[1..], ctx, p, depth + 1);
      AGroupReads(tokens, ctx, p, depth);
      ClosingEnds(Verdict(inner, ctx, p), Skip(tokens[1..], |Print(inner, 0)|), Lacking(inner, ctx), ctx, p, depth + 1);
    }
  }

  lemma TooDeepForAnOperand(tokens: Tokens, ctx: Context, p: Platform, depth: nat)
    requires depth > MAX_DEPTH
    ensures ReadOperand(tokens, ctx, p, depth) == Refused(TooDeep)
  {
  }

  lemma AnOperandOfOneWord(atom: Atom, wraps: nat, tokens: Tokens, ctx: Context, p: Platform, depth: nat)
    requires Starts([Held(atom, wraps)], tokens) && depth <= MAX_DEPTH
    ensures ReadOperand(tokens, ctx, p, depth)
         == if depth + wraps > MAX_DEPTH then Refused(TooDeep)
            else Read(AtomValue(atom, ctx), Skip(tokens, 1), AtomUnread(atom, ctx))
  {
    assert Condensed(tokens)[0] == Held(atom, wraps);
    assert Skip(tokens, 1) == Next(tokens);
    AnOperandByItsWord(tokens, ctx, p, depth);
  }

  lemma InsideAGroup(words: Words, tokens: Tokens)
    requires Starts(Grouped(words), tokens)
    ensures tokens != [] && First(tokens) == Sign(Open) && Next(tokens) == tokens[1..] && Starts(words, tokens[1..])
    ensures
      var rest := Skip(tokens[1..], |words|);
      Is(rest, Close) && Skip(tokens, |Grouped(words)|) == rest[1..]
  {
    assert Grouped(words) == [Sign(Open)] + (words + [Sign(Close)]);
    assert words + [Sign(Close)] == words + [Sign(Close)] + [];
    StartsWithASign(Open, words + [Sign(Close)], tokens);
    StartsInThree(words, Close, [], tokens[1..]);
    assert Skip(Skip(tokens[1..], |words|)[1..], 0) == Skip(tokens[1..], |words|)[1..];
    hide Skip, First, Next, Condensed;
  }

  lemma AGroupReads(tokens: Tokens, ctx: Context, p: Platform, depth: nat)
    requires tokens != [] && First(tokens) == Sign(Open) && Next(tokens) == tokens[1..] && depth <= MAX_DEPTH
    ensures
      var inner := ReadOr(tokens[1..], ctx, p, depth + 1);
      ReadOperand(tokens, ctx, p, depth)
      == if inner.Refused? then Refused(inner.why)
         else if !Is(inner.rest, Close) then Refused(Unbalanced)
         else Read(AsValue(inner.value), inner.rest[1..], inner.unread)
  {
    AnOperandByItsWord(tokens, ctx, p, depth);
  }

  /** A condition ends at a closing parenthesis. */
  lemma ClosingEnds(value: Option<bool>, rest: Tokens, unread: set<string>, ctx: Context, p: Platform, depth: nat)
    requires Is(rest, Close)
    ensures OrTail(value, rest, unread, ctx, p, depth) == Read(value, rest, unread)
    ensures NoComparison(rest) && !Is(rest, AndOp)
  {
  }

  lemma {:induction false} ReadsComparison(e: Expr, tokens: Tokens, ctx: Context, p: Platform, depth: nat)
    requires Starts(Print(e, 3), tokens) && NoComparison(Skip(tokens, |Print(e, 3)|))
    ensures ReadComparison(tokens, ctx, p, depth)
         == if depth + Nest(e, 3) > MAX_DEPTH then Refused(TooDeep)
            else Read(Verdict(e, ctx, p), Skip(tokens, |Print(e, 3)|), Lacking(e, ctx))
    decreases e, Rank(e, 3)
  {
    hide Starts, Skip, ReadOperand;
    if e.Cmp? {
      var op := if e.equal then EqualOp else DiffersOp;
      StartsInThree(Print(e.left, 4), op, Print(e.right, 4), tokens);
      ReadsOperand(e.left, tokens, ctx, p, depth);
      ReadsOperand(e.right, Skip(tokens, |Print(e.left, 4)|)[1..], ctx, p, depth);
      ComparesTheSame(e.equal, Compared(e.left, ctx, p), Compared(e.right, ctx, p), p);
      hide Compare, Comparison;
    } else {
      assert Print(e, 3) == Print(e, 4);
      ReadsOperand(e, tokens, ctx, p, depth);
      assert Truth(Compared(e, ctx, p)) == Verdict(e, ctx, p);
    }
  }

  lemma {:induction false} ReadsNot(e: Expr, tokens: Tokens, ctx: Context, p: Platform, depth: nat)
    requires Starts(Print(e, 2), tokens) && NoComparison(Skip(tokens, |Print(e, 2)|))
    ensures ReadNot(tokens, ctx, p, depth)
         == if depth + Nest(e, 2) > MAX_DEPTH then Refused(TooDeep)
            else Read(Verdict(e, ctx, p), Skip(tokens, |Print(e, 2)|), Lacking(e, ctx))
    decreases e, Rank(e, 2)
  {
    hide Starts, Skip, ReadComparison, First, Next;
    if e.Not? {
      StartsWithASign(NotOp, Print(e.inner, 2), tokens);
      ReadsNot(e.inner, tokens[1..], ctx, p, depth + 1);
    } else {
      assert Print(e, 2) == Print(e, 3);
      FirstIsNoBang(e, tokens);
      ReadsComparison(e, tokens, ctx, p, depth);
    }
  }

  lemma FirstIsNoBang(e: Expr, tokens: Tokens)
    requires !e.Not? && Starts(Print(e, 3), tokens)
    ensures !Is(tokens, NotOp)
  {
    ASignIsAWord(tokens, NotOp);
    ItStartsWithNoBang(e);
    hide Print;
    assert Condensed(tokens)[0] == Print(e, 3)[0];
  }

  lemma ItStartsWithNoBang(e: Expr)
    requires !e.Not?
    ensures Print(e, 3) != [] && Print(e, 3)[0] != Sign(NotOp)
  {
    PrintIsNotEmpty(e, 3);
    if e.Cmp? {
      PrintIsNotEmpty(e.left, 4);
      assert Print(e, 3)[0] == Print(e.left, 4)[0];
    }
  }

  lemma {:induction false} ReadsAnd(e: Expr, tokens: Tokens, ctx: Context, p: Platform, depth: nat)
    requires Starts(Print(e, 1), tokens) && NoComparison(Skip(tokens, |Print(e, 1)|))
    ensures ReadAnd(tokens, ctx, p, depth)
         == if depth + Nest(e, 1) > MAX_DEPTH then Refused(TooDeep)
            else AndTail(Verdict(e, ctx, p), Skip(tokens, |Print(e, 1)|), Lacking(e, ctx), ctx, p, depth)
    decreases e, Rank(e, 1)
  {
    hide Starts, Skip, ReadNot;
    if e.And? {
      var rest := Skip(tokens, |Print(e.left, 1)|);
      StartsInThree(Print(e.left, 1), AndOp, Print(e.right, 2), tokens);
      ReadsAnd(e.left, tokens, ctx, p, depth);
      ReadsNot(e.right, rest[1..], ctx, p, depth);
      TwoWays(Verdict(e.left, ctx, p), Verdict(e.right, ctx, p));
    } else {
      assert Print(e, 1) == Print(e, 2);
      ReadsNot(e, tokens, ctx, p, depth);
    }
  }

  /** The reader's one connective is Kleene's two. */
  lemma TwoWays(a: Option<bool>, b: Option<bool>)
    ensures Either(a, b, false) == Both(a, b) && Either(a, b, true) == AnyOf(a, b)
  {
  }

  lemma {:induction false} ReadsOr(e: Expr, tokens: Tokens, ctx: Context, p: Platform, depth: nat)
    requires Starts(Print(e, 0), tokens)
    requires NoComparison(Skip(tokens, |Print(e, 0)|)) && !Is(Skip(tokens, |Print(e, 0)|), AndOp)
    ensures ReadOr(tokens, ctx, p, depth)
         == if depth + Nest(e, 0) > MAX_DEPTH then Refused(TooDeep)
            else OrTail(Verdict(e, ctx, p), Skip(tokens, |Print(e, 0)|), Lacking(e, ctx), ctx, p, depth)
    decreases e, Rank(e, 0)
  {
    hide Starts, Skip, ReadAnd;
    if depth > MAX_DEPTH {
    } else if e.Or? {
      var rest := Skip(tokens, |Print(e.left, 0)|);
      StartsInThree(Print(e.left, 0), OrOp, Print(e.right, 1), tokens);
      ReadsOr(e.left, tokens, ctx, p, depth);
      ReadsAnd(e.right, rest[1..], ctx, p, depth);
      TwoWays(Verdict(e.left, ctx, p), Verdict(e.right, ctx, p));
    } else {
      assert Print(e, 0) == Print(e, 1);
      ReadsAnd(e, tokens, ctx, p, depth);
    }
  }

  // What a tree gives when its text is read: its verdict and what it lacks, or the refusal of its depth.
  function Answer(e: Expr, ctx: Context, p: Platform): Result<Condition, Refusal> {
    if Nest(e, 0) > 64 then Err(TooDeep)
    else
      var verdict := Verdict(e, ctx, p);
      Ok(Condition(verdict, if verdict.Some? then {} else Lacking(e, ctx)))
  }

  /** A text whose words are a tree's is answered as the tree. */
  lemma TextsOfATreeReadAsIt(e: Expr, tokens: Tokens, ctx: Context, p: Platform)
    requires Condensed(tokens) == Print(e, 0)
    ensures Evaluate(tokens, ctx, p) == Answer(e, ctx, p)
  {
    PrintIsNotEmpty(e, 0);
    WordsAfter(tokens, |Print(e, 0)|);
    NothingIsLeft(Skip(tokens, |Print(e, 0)|));
    hide Condensed, Skip, ReadOr;
    ReadsOr(e, tokens, ctx, p, 0);
  }

  lemma NothingIsLeft(tokens: Tokens)
    ensures Condensed(tokens) == [] ==> tokens == []
  {
  }

  lemma PrintIsNotEmpty(e: Expr, level: nat)
    ensures Print(e, level) != []
  {
  }

  /**
   * Every tree whose text leaves no parenthesis beside an operand in parentheses reads back: the text
   * is consumed to the end with the tree's verdict when it nests at most 64 deep, and is refused as
   * too deep when it nests deeper.
   */
  lemma PrintedTreesReadBack(e: Expr, ctx: Context, p: Platform)
    requires Clear(Print(e, 0))
    ensures Evaluate(Spelled(Print(e, 0)), ctx, p) == Answer(e, ctx, p)
  {
    WordsReadBackExactlyWhenClear(Print(e, 0));
    TextsOfATreeReadAsIt(e, Spelled(Print(e, 0)), ctx, p);
  }

  // ---- the edges of a tree's words ----

  predicate IsOperator(word: Word) {
    word.Sign? && word.op != Open && word.op != Close
  }

  /** An operand at an edge of a tree's words has an operator beside it, unless it is alone. */
  lemma {:induction false} Edges(e: Expr, level: nat)
    ensures HasEdges(Print(e, level)) && (|Print(e, level)| == 1 <==> e.Leaf? && level <= 4)
    decreases e
  {
    match e
    case Leaf(_, _) =>
    case Not(inner) =>
      Edges(inner, 2);
      GroupedEdges(Bare(e));
    case Paren(inner) =>
      Edges(inner, 0);
      GroupedEdges(Print(inner, 0));
      GroupedEdges(Bare(e));
    case Cmp(equal, left, right) =>
      Edges(left, 4);
      Edges(right, 4);
      TwoEdges(Print(left, 4), Sign(if equal then EqualOp else DiffersOp), Print(right, 4));
      GroupedEdges(Bare(e));
    case And(left, right) =>
      Edges(left, 1);
      Edges(right, 2);
      TwoEdges(Print(left, 1), Sign(AndOp), Print(right, 2));
      GroupedEdges(Bare(e));
    case Or(left, right) =>
      Edges(left, 0);
      Edges(right, 1);
      TwoEdges(Print(left, 0), Sign(OrOp), Print(right, 1));
      GroupedEdges(Bare(e));
  }

  predicate HasEdges(words: Words) {
    var n := |words|;
    && n > 0 && (words[0].Held? || words[0] == Sign(Open) || words[0] == Sign(NotOp))
    && (words[n - 1].Held? || words[n - 1] == Sign(Close))
    && (n > 1 && words[0].Held? ==> IsOperator(words[1]))
    && (n > 1 && words[n - 1].Held? ==> IsOperator(words[n - 2]))
  }

  lemma GroupedEdges(words: Words)
    ensures HasEdges(Grouped(words)) && |Grouped(words)| > 1
  {
  }

  lemma TwoEdges(left: Words, word: Word, right: Words)
    requires HasEdges(left) && IsOperator(word) && HasEdges(right)
    ensures HasEdges(left + [word] + right) && |left + [word] + right| > 1
  {
  }
}
