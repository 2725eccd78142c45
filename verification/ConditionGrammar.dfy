/** Which texts the condition reader accepts: those whose words are a tree's, within its depth. */
module ConditionGrammar {
  import opened Prelude
  import opened Conditions
  import opened ConditionWords
  import opened ConditionPrinting

  /** Whether the text starts with a tree's words and goes on with `rest`. */
  ghost predicate Covers(e: Expr, level: nat, tokens: Tokens, rest: Tokens) {
    Starts(Print(e, level), tokens) && rest == Skip(tokens, |Print(e, level)|)
  }

  lemma CoversTwo(e: Expr, level: nat, left: Expr, a: nat, op: Operator, right: Expr, b: nat, tokens: Tokens,
                  middle: Tokens, rest: Tokens)
    requires op != Open && Covers(left, a, tokens, middle) && Is(middle, op) && Covers(right, b, middle[1..], rest)
    requires Print(e, level) == Print(left, a) + [Sign(op)] + Print(right, b)
    ensures Covers(e, level, tokens, rest)
  {
    hide Starts, Skip, Print;
    StartsInThree(Print(left, a), op, Print(right, b), tokens);
  }

  lemma CoversNot(inner: Expr, tokens: Tokens, rest: Tokens)
    requires Is(tokens, NotOp) && Covers(inner, 2, tokens[1..], rest)
    ensures Covers(Not(inner), 2, tokens, rest)
  {
    OneWord(tokens);
    assert Print(Not(inner), 2) == [Sign(NotOp)] + Print(inner, 2);
    StartsInTwo([Sign(NotOp)], Print(inner, 2), tokens);
    hide Starts, Skip, Print;
  }

  /** A tree that binds tighter is written the same. */
  lemma Tighter(e: Expr, level: nat)
    requires Binding(e) >= level + 1
    ensures Print(e, level) == Print(e, level + 1)
    ensures forall tokens, rest :: Covers(e, level, tokens, rest) == Covers(e, level + 1, tokens, rest)
  {
  }

  lemma CoversALeaf(tokens: Tokens)
    requires tokens != [] && First(tokens).Held?
    ensures Covers(Leaf(First(tokens).atom, First(tokens).wraps), 4, tokens, Next(tokens))
  {
    OneWord(tokens);
  }

  lemma {:induction false} TreeOfOperand(tokens: Tokens, ctx: Context, p: Platform, depth: nat) returns (e: Expr)
    requires ReadOperand(tokens, ctx, p, depth).Read?
    ensures Binding(e) == 4 && Covers(e, 4, tokens, ReadOperand(tokens, ctx, p, depth).rest)
    decreases |tokens|, 0
  {
    AnOperandByItsWord(tokens, ctx, p, depth);
    match First(tokens)
    case Held(atom, wraps) =>
      e := Leaf(atom, wraps);
      CoversALeaf(tokens);
      hide ReadOperand, ReadOr, First, Next, Starts, Skip;
    case Sign(op) =>
      SignsStand(tokens);
      var inner := TreeOfOr(tokens[1..], ctx, p, depth + 1);
      e := Paren(inner);
      hide ReadOperand, ReadOr, First, Next, Covers;
      CoversAGroup(inner, tokens, ReadOr(tokens[1..], ctx, p, depth + 1).rest);
  }

  lemma OneWord(tokens: Tokens)
    requires tokens != []
    ensures Starts([First(tokens)], tokens) && Skip(tokens, 1) == Next(tokens)
  {
    assert Skip(Next(tokens), 0) == Next(tokens);
  }

  lemma SignsStand(tokens: Tokens)
    requires tokens != [] && First(tokens).Sign?
    ensures Next(tokens) == tokens[1..] && tokens[0] == Op(First(tokens).op)
  {
  }

  lemma CoversAGroup(inner: Expr, tokens: Tokens, rest: Tokens)
    requires tokens != [] && First(tokens) == Sign(Open) && Next(tokens) == tokens[1..]
    requires Covers(inner, 0, tokens[1..], rest) && Is(rest, Close)
    ensures Covers(Paren(inner), 4, tokens, rest[1..])
  {
    var words := Print(inner, 0);
    assert Print(Paren(inner), 4) == Grouped(words);
    assert Grouped(words) == [Sign(Open)] + (words + [Sign(Close)]);
    assert words + [Sign(Close)] == words + [Sign(Close)] + [];
    OneWord(tokens);
    hide Condensed, Skip, First, Next, Print;
    StartsInThree(words, Close, [], tokens[1..]);
    StartsInTwo([Sign(Open)], words + [Sign(Close)], tokens);
    StartsWithNothing(rest[1..]);
  }

  lemma StartsWithNothing(tokens: Tokens)
    ensures Starts([], tokens) && Skip(tokens, 0) == tokens
  {
  }

  lemma {:induction false} TreeOfComparison(tokens: Tokens, ctx: Context, p: Platform, depth: nat) returns (e: Expr)
    requires ReadComparison(tokens, ctx, p, depth).Read?
    ensures Binding(e) >= 3 && Covers(e, 3, tokens, ReadComparison(tokens, ctx, p, depth).rest)
    decreases |tokens|, 1
  {
    e := TreeOfOperand(tokens, ctx, p, depth);
    var rest := ReadOperand(tokens, ctx, p, depth).rest;
    hide ReadOperand, Covers;
    if Is(rest, EqualOp) || Is(rest, DiffersOp) {
      var right := TreeOfOperand(rest[1..], ctx, p, depth);
      var equal := Is(rest, EqualOp);
      var left := e;
      e := Cmp(equal, left, right);
      CoversTwo(e, 3, left, 4, if equal then EqualOp else DiffersOp, right, 4, tokens, rest,
                ReadOperand(rest[1..], ctx, p, depth).rest);
    } else {
      Tighter(e, 3);
    }
  }

  lemma {:induction false} TreeOfNot(tokens: Tokens, ctx: Context, p: Platform, depth: nat) returns (e: Expr)
    requires ReadNot(tokens, ctx, p, depth).Read?
    ensures Binding(e) >= 2 && Covers(e, 2, tokens, ReadNot(tokens, ctx, p, depth).rest)
    decreases |tokens|, 2
  {
    hide ReadComparison, Covers;
    if Is(tokens, NotOp) {
      var inner := TreeOfNot(tokens[1..], ctx, p, depth + 1);
      e := Not(inner);
      CoversNot(inner, tokens, ReadNot(tokens[1..], ctx, p, depth + 1).rest);
    } else {
      e := TreeOfComparison(tokens, ctx, p, depth);
      Tighter(e, 2);
    }
  }

  lemma {:induction false} TreeOfAnd(tokens: Tokens, ctx: Context, p: Platform, depth: nat) returns (e: Expr)
    requires ReadAnd(tokens, ctx, p, depth).Read?
    ensures Binding(e) >= 1 && Covers(e, 1, tokens, ReadAnd(tokens, ctx, p, depth).rest)
    decreases |tokens|, 4
  {
    var first := ReadNot(tokens, ctx, p, depth);
    e := TreeOfNot(tokens, ctx, p, depth);
    Tighter(e, 1);
    hide Covers, ReadNot;
    e := TreeOfAndTail(tokens, e, first.value, first.rest, first.unread, ctx, p, depth);
  }

  lemma {:induction false} TreeOfAndTail(tokens: Tokens, left: Expr, value: Option<bool>, rest: Tokens,
                                         unread: set<string>, ctx: Context, p: Platform, depth: nat)
    returns (e: Expr)
    requires AndTail(value, rest, unread, ctx, p, depth).Read? && |rest| < |tokens|
    requires Binding(left) >= 1 && Covers(left, 1, tokens, rest)
    ensures Binding(e) >= 1 && Covers(e, 1, tokens, AndTail(value, rest, unread, ctx, p, depth).rest)
    decreases |rest|, 3
  {
    hide ReadNot, Covers;
    if !Is(rest, AndOp) {
      e := left;
    } else {
      var second := ReadNot(rest[1..], ctx, p, depth);
      var right := TreeOfNot(rest[1..], ctx, p, depth);
      CoversTwo(And(left, right), 1, left, 1, AndOp, right, 2, tokens, rest, second.rest);
      e := TreeOfAndTail(tokens, And(left, right), Either(value, second.value, false), second.rest,
                         unread + second.unread, ctx, p, depth);
    }
  }

  lemma {:induction false} TreeOfOr(tokens: Tokens, ctx: Context, p: Platform, depth: nat) returns (e: Expr)
    requires ReadOr(tokens, ctx, p, depth).Read?
    ensures Covers(e, 0, tokens, ReadOr(tokens, ctx, p, depth).rest)
    decreases |tokens|, 6
  {
    var first := ReadAnd(tokens, ctx, p, depth);
    e := TreeOfAnd(tokens, ctx, p, depth);
    Tighter(e, 0);
    hide Covers, ReadAnd;
    e := TreeOfOrTail(tokens, e, first.value, first.rest, first.unread, ctx, p, depth);
  }

  lemma {:induction false} TreeOfOrTail(tokens: Tokens, left: Expr, value: Option<bool>, rest: Tokens,
                                        unread: set<string>, ctx: Context, p: Platform, depth: nat)
    returns (e: Expr)
    requires OrTail(value, rest, unread, ctx, p, depth).Read? && |rest| < |tokens|
    requires Covers(left, 0, tokens, rest)
    ensures Covers(e, 0, tokens, OrTail(value, rest, unread, ctx, p, depth).rest)
    decreases |rest|, 5
  {
    hide ReadAnd, Covers;
    if !Is(rest, OrOp) {
      e := left;
    } else {
      var second := ReadAnd(rest[1..], ctx, p, depth);
      var right := TreeOfAnd(rest[1..], ctx, p, depth);
      CoversTwo(Or(left, right), 0, left, 0, OrOp, right, 1, tokens, rest, second.rest);
      e := TreeOfOrTail(tokens, Or(left, right), Either(value, second.value, true), second.rest,
                        unread + second.unread, ctx, p, depth);
    }
  }

  /** Whether the text's words are those of a tree the descent has room for. */
  ghost predicate IsWritten(tokens: Tokens) {
    exists e: Expr :: Condensed(tokens) == Print(e, 0) && Nest(e, 0) <= 64
  }

  /**
   * A text is read if and only if its words are a tree's that nests at most 64 deep. It is then
   * answered as that tree, whichever tree with those words is taken.
   */
  lemma ATextIsReadExactlyWhen(tokens: Tokens, ctx: Context, p: Platform)
    ensures Evaluate(tokens, ctx, p).Ok? <==> IsWritten(tokens)
    ensures forall e: Expr | Condensed(tokens) == Print(e, 0) :: Evaluate(tokens, ctx, p) == Answer(e, ctx, p)
  {
    forall e: Expr | Condensed(tokens) == Print(e, 0) ensures Evaluate(tokens, ctx, p) == Answer(e, ctx, p) {
      TextsOfATreeReadAsIt(e, tokens, ctx, p);
    }
    if Evaluate(tokens, ctx, p).Ok? {
      var e := TreeOfOr(tokens, ctx, p, 0);
      AllIsCovered(e, tokens);
    }
    hide Condensed, Print, Nest, Evaluate;
  }

  lemma AllIsCovered(e: Expr, tokens: Tokens)
    requires Covers(e, 0, tokens, [])
    ensures Condensed(tokens) == Print(e, 0)
  {
    WordsAfter(tokens, |Print(e, 0)|);
    assert Condensed(tokens) == Condensed(tokens)[..|Print(e, 0)|] + Condensed(tokens)[|Print(e, 0)|..];
  }

  // ---- trees without operands in parentheses ----

  /** Whether every group of the tree holds an operator. */
  predicate HoldsOperators(e: Expr) {
    match e
    case Leaf(_, wraps) => wraps == 0
    case Paren(inner) => !inner.Leaf? && HoldsOperators(inner)
    case Not(inner) => HoldsOperators(inner)
    case Cmp(_, left, right) => HoldsOperators(left) && HoldsOperators(right)
    case And(left, right) => HoldsOperators(left) && HoldsOperators(right)
    case Or(left, right) => HoldsOperators(left) && HoldsOperators(right)
  }

  lemma ClearInThree(left: Words, word: Word, right: Words)
    requires Clear(left) && Clear(right) && IsOperator(word)
    ensures Clear(left + [word] + right)
  {
    var words := left + [word] + right;
    forall i | 0 <= i < |words| ensures ClearAt(words, i) {
      if i < |left| {
        assert ClearAt(left, i);
        assert i + 1 < |left| ==> words[i + 1] == left[i + 1];
      } else if i > |left| {
        var j := i - |left| - 1;
        assert ClearAt(right, j);
        assert words[i] == right[j];
        assert i + 1 < |words| ==> words[i + 1] == right[j + 1];
        assert j > 0 ==> words[i - 1] == right[j - 1];
      }
    }
  }

  /** Whether no operand of the words is in parentheses. */
  predicate NoWraps(words: Words) {
    forall i | 0 <= i < |words| :: words[i].Held? ==> words[i].wraps == 0
  }

  lemma ClearGrouped(words: Words)
    requires Clear(words) && NoWraps(words) && HasEdges(words) && |words| > 1
    ensures Clear(Grouped(words)) && NoWraps(Grouped(words))
  {
    var all := Grouped(words);
    forall i | 0 <= i < |all| ensures ClearAt(all, i) {
      if 0 < i <= |words| {
        assert ClearAt(words, i - 1);
        assert all[i] == words[i - 1];
        assert i < |words| ==> all[i + 1] == words[i];
        assert i > 1 ==> all[i - 1] == words[i - 2];
      }
    }
  }

  lemma {:induction false} OperatorsAreClear(e: Expr, level: nat)
    requires HoldsOperators(e) && level <= 4
    ensures Clear(Print(e, level)) && NoWraps(Print(e, level))
    decreases e, 1
  {
    BareOperatorsAreClear(e);
    if Binding(e) < level {
      Edges(e, Binding(e));
      ClearGrouped(Bare(e));
    }
  }

  lemma {:induction false} BareOperatorsAreClear(e: Expr)
    requires HoldsOperators(e)
    ensures Clear(Bare(e)) && NoWraps(Bare(e))
    decreases e, 0
  {
    hide Clear, HasEdges;
    match e
    case Leaf(atom, _) => OneWordIsClear(Held(atom, 0));
    case Not(inner) =>
      OperatorsAreClear(inner, 2);
      NothingIsClear();
      ClearInThree([], Sign(NotOp), Print(inner, 2));
      assert [] + [Sign(NotOp)] + Print(inner, 2) == [Sign(NotOp)] + Print(inner, 2);
    case Paren(inner) =>
      OperatorsAreClear(inner, 0);
      Edges(inner, 0);
      ClearGrouped(Print(inner, 0));
    case Cmp(equal, left, right) =>
      OperatorsAreClear(left, 4);
      OperatorsAreClear(right, 4);
      ClearInThree(Print(left, 4), Sign(if equal then EqualOp else DiffersOp), Print(right, 4));
    case And(left, right) =>
      OperatorsAreClear(left, 1);
      OperatorsAreClear(right, 2);
      ClearInThree(Print(left, 1), Sign(AndOp), Print(right, 2));
    case Or(left, right) =>
      OperatorsAreClear(left, 0);
      OperatorsAreClear(right, 1);
      ClearInThree(Print(left, 0), Sign(OrOp), Print(right, 1));
  }

  lemma OneWordIsClear(word: Word)
    requires word.Held? && word.wraps == 0
    ensures Clear([word])
  {
  }

  lemma NothingIsClear()
    ensures Clear([])
  {
  }

  /** Every tree whose groups each hold an operator reads back from its text, redundant groups or not. */
  lemma GroupsOfOperatorsReadBack(e: Expr, ctx: Context, p: Platform)
    requires HoldsOperators(e)
    ensures Evaluate(Spelled(Print(e, 0)), ctx, p) == Answer(e, ctx, p)
  {
    OperatorsAreClear(e, 0);
    PrintedTreesReadBack(e, ctx, p);
  }

  /**
   * A group that begins and ends with an operand in parentheses falls apart: `((a) || (b)) && c` is
   * read as `a || b && c`, for any three operands, and so holds with `a` where `c` does not.
   */
  lemma AGroupMayFallApart(a: Atom, b: Atom, c: Atom, ctx: Context, p: Platform)
    ensures
      var text := [Op(Open), Op(Open), Operand(a), Op(Close), Op(OrOp), Op(Open), Operand(b), Op(Close), Op(Close),
                   Op(AndOp), Operand(c)];
      var read := Or(Leaf(a, 2), And(Leaf(b, 1), Leaf(c, 0)));
      && Evaluate(text, ctx, p) == Answer(read, ctx, p)
      && (Truth(AtomValue(a, ctx)) == Some(true) && Truth(AtomValue(c, ctx)) == Some(false) ==>
            Verdict(read, ctx, p) == Some(true))
  {
    var read := Or(Leaf(a, 2), And(Leaf(b, 1), Leaf(c, 0)));
    var text := [Op(Open), Op(Open), Operand(a), Op(Close)]
                + ([Op(OrOp)] + ([Op(Open), Operand(b), Op(Close), Op(Close)] + [Op(AndOp), Operand(c)]));
    assert text == [Op(Open), Op(Open), Operand(a), Op(Close), Op(OrOp), Op(Open), Operand(b), Op(Close), Op(Close),
                    Op(AndOp), Operand(c)];
    hide *;
    ApartInSteps(a, b, c);
    ReadApart(a, b, c);
    TextsOfATreeReadAsIt(read, text, ctx, p);
    if Truth(AtomValue(a, ctx)) == Some(true) && Truth(AtomValue(c, ctx)) == Some(false) {
      TheFirstDecides(a, b, c, ctx, p);
    }
  }

  lemma TheFirstDecides(a: Atom, b: Atom, c: Atom, ctx: Context, p: Platform)
    requires Truth(AtomValue(a, ctx)) == Some(true) && Truth(AtomValue(c, ctx)) == Some(false)
    ensures Verdict(Or(Leaf(a, 2), And(Leaf(b, 1), Leaf(c, 0))), ctx, p) == Some(true)
  {
    hide AtomValue, Truth;
    assert Verdict(Leaf(a, 2), ctx, p) == Some(true);
  }

  lemma ApartInSteps(a: Atom, b: Atom, c: Atom)
    ensures
      var middle := [Op(Open), Operand(b), Op(Close), Op(Close)] + [Op(AndOp), Operand(c)];
      Condensed([Op(Open), Op(Open), Operand(a), Op(Close)] + ([Op(OrOp)] + middle))
      == [Held(a, 2)] + ([Sign(OrOp)] + ([Held(b, 1)] + ([Sign(AndOp)] + [Held(c, 0)])))
  {
    var end := [Op(AndOp)] + [Operand(c)];
    var middle := [Op(Open), Operand(b), Op(Close), Op(Close)] + end;
    var behind := [Op(OrOp)] + middle;
    RepeatsOfTwo();
    OneOperandCondenses(c);
    assert end == [Op(AndOp), Operand(c)];
    assert [Op(Open), Op(Open), Operand(a), Op(Close)] + behind
        == Repeat(Open, 2) + ([Operand(a)] + (Repeat(Close, 1) + behind));
    assert middle == Repeat(Open, 1) + ([Operand(b)] + (Repeat(Close, 2) + end));
    hide Condensed, Repeat;
    WrappedFirst(a, 2, 1, behind);
    WrappedFirst(b, 1, 2, end);
    ASignFirst(AndOp, [Operand(c)]);
    ASignFirst(OrOp, middle);
  }

  lemma RepeatsOfTwo()
    ensures Repeat(Open, 1) == [Op(Open)] && Repeat(Open, 2) == [Op(Open), Op(Open)]
    ensures Repeat(Close, 1) == [Op(Close)] && Repeat(Close, 2) == [Op(Close), Op(Close)]
  {
  }

  lemma OneOperandCondenses(c: Atom)
    ensures Condensed([Operand(c)]) == [Held(c, 0)]
  {
    assert [Operand(c)][1..] == [];
  }

  lemma ReadApart(a: Atom, b: Atom, c: Atom)
    ensures Print(Or(Leaf(a, 2), And(Leaf(b, 1), Leaf(c, 0))), 0)
         == [Held(a, 2)] + ([Sign(OrOp)] + ([Held(b, 1)] + ([Sign(AndOp)] + [Held(c, 0)])))
  {
    var both := And(Leaf(b, 1), Leaf(c, 0));
    assert Print(Leaf(a, 2), 0) == [Held(a, 2)] && Print(Leaf(b, 1), 1) == [Held(b, 1)];
    assert Print(Leaf(c, 0), 2) == [Held(c, 0)];
    assert Print(both, 1) == Bare(both);
    assert Print(Or(Leaf(a, 2), both), 0) == Bare(Or(Leaf(a, 2), both));
  }
}
