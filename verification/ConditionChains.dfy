/**
 * Guards joined through any number of nested reusable calls: `(e1) && ((e2) && ((e3) && ...))`, in
 * the places joining gives them. Which guards begin or end with an operand in parentheses decides
 * whether the chain can be read at all, and which of them join with `||` whether it means all of them.
 */
module ConditionChains {
  import opened Prelude
  import opened Conditions
  import opened ConditionWords
  import opened ConditionPrinting
  import opened ConditionGrammar
  import opened ConditionGuards

  /** Whether no closing parenthesis comes before its opening one, and none is left open at the end. */
  predicate Balanced(items: seq<Item>, depth: nat) {
    if items == [] then depth == 0
    else
      && items[0].closes <= depth + items[0].opens
      && Balanced(items[1..], depth + items[0].opens - items[0].closes)
  }

  /** How deep the descent goes for trees in their places. */
  function Deepest(items: seq<Item>, depth: nat): nat
    requires Balanced(items, depth)
  {
    if items == [] then depth
    else
      Max(depth + items[0].opens + Nest(items[0].tree, 0),
          Deepest(items[1..], depth + items[0].opens - items[0].closes))
  }

  // ---- a balanced chain is the text of a tree ----

  // A group that is being read: the alternatives before the current one, and its terms so far.
  datatype Frame = Frame(ors: Option<Expr>, ands: Option<Expr>)

  // The same behind a term.
  datatype Part = Part(ors: Option<Expr>, term: Expr)

  const BLANK := Frame(None, None)

  function Whole(part: Part): Expr {
    match part.ors
    case Some(ors) => Or(ors, part.term)
    case None => if part.term.Or? then Paren(part.term) else part.term
  }

  /** A conjunction with the terms of a tree behind it. */
  function Extended(ands: Option<Expr>, e: Expr): Expr {
    if ands.None? then e
    else if e.And? then And(Extended(ands, e.left), e.right)
    else And(ands.value, e)
  }

  /** A frame with a tree written into it without parentheses. */
  function Spliced(frame: Frame, e: Expr): Part {
    if e.Or? then Part(Some(Whole(Spliced(frame, e.left))), e.right) else Part(frame.ors, Extended(frame.ands, e))
  }

  function Opened(stack: seq<Frame>, frame: Frame, n: nat): (r: (seq<Frame>, Frame))
    ensures |r.0| == |stack| + n
    decreases n
  {
    if n == 0 then (stack, frame) else Opened(stack + [frame], BLANK, n - 1)
  }

  function Attached(frame: Frame, part: Part): Part {
    Part(frame.ors, Extended(frame.ands, Paren(Whole(part))))
  }

  function Closed(stack: seq<Frame>, part: Part, n: nat): (r: (seq<Frame>, Part))
    requires n <= |stack|
    ensures |r.0| == |stack| - n
    decreases n
  {
    if n == 0 then (stack, part)
    else Closed(stack[..|stack| - 1], Attached(stack[|stack| - 1], part), n - 1)
  }

  /** What one place makes of the groups being read. */
  function Taken(stack: seq<Frame>, frame: Frame, item: Item): (r: (seq<Frame>, Part))
    requires item.closes <= |stack| + item.opens
    ensures |r.0| == |stack| + item.opens - item.closes
  {
    var (opened1, inner) := Opened(stack, frame, item.opens);
    Closed(opened1, Spliced(inner, item.tree), item.closes)
  }

  /** The tree a balanced chain is the text of, from the groups being read. */
  function Built(items: seq<Item>, stack: seq<Frame>, frame: Frame): Expr
    requires items != [] && Balanced(items, |stack|)
  {
    var (after, part) := Taken(stack, frame, items[0]);
    if |items| == 1 then Whole(part) else Built(items[1..], after, Frame(part.ors, Some(part.term)))
  }

  // ---- its words ----

  function OrWords(ors: Option<Expr>): Words {
    if ors.None? then [] else Print(ors.value, 0) + [Sign(OrOp)]
  }

  function AndWords(ands: Option<Expr>): Words {
    if ands.None? then [] else Print(ands.value, 1) + [Sign(AndOp)]
  }

  function FrameWords(frame: Frame): Words {
    OrWords(frame.ors) + AndWords(frame.ands)
  }

  function PartWords(part: Part): Words {
    OrWords(part.ors) + Print(part.term, 1)
  }

  function StackWords(stack: seq<Frame>): Words {
    if stack == [] then []
    else StackWords(stack[..|stack| - 1]) + FrameWords(stack[|stack| - 1]) + [Sign(Open)]
  }

  lemma WholePrints(part: Part)
    ensures Print(Whole(part), 0) == PartWords(part)
  {
    if part.ors.None? {
      assert [] + Print(part.term, 1) == Print(part.term, 1);
      var bare := Bare(part.term);
      assert part.term.Or? ==> Print(part.term, 0) == bare && Print(part.term, 1) == Grouped(bare);
      assert part.term.Or? ==> Bare(Paren(part.term)) == Grouped(Print(part.term, 0));
      assert !part.term.Or? ==> Print(part.term, 0) == Print(part.term, 1);
    }
  }

  lemma {:induction false} ExtendedPrints(ands: Option<Expr>, e: Expr)
    ensures Print(Extended(ands, e), 1) == AndWords(ands) + Print(e, 1)
    decreases e
  {
    if ands.None? {
      assert [] + Print(e, 1) == Print(e, 1);
    } else if e.And? {
      ExtendedPrints(ands, e.left);
      assert Print(e, 1) == Print(e.left, 1) + [Sign(AndOp)] + Print(e.right, 2);
      hide Extended;
      Regroup(AndWords(ands), Print(e.left, 1), [Sign(AndOp)] + Print(e.right, 2));
    } else {
      assert Print(e, 1) == Print(e, 2);
    }
  }

  lemma Regroup(a: Words, b: Words, c: Words)
    ensures a + b + c == a + (b + c)
  {
  }

  lemma {:induction false} SplicedPrints(frame: Frame, e: Expr)
    ensures PartWords(Spliced(frame, e)) == FrameWords(frame) + Print(e, 0)
    decreases e
  {
    if e.Or? {
      var left := Spliced(frame, e.left);
      SplicedPrints(frame, e.left);
      WholePrints(left);
      assert Print(e, 0) == Print(e.left, 0) + [Sign(OrOp)] + Print(e.right, 1);
      hide Spliced, Whole, FrameWords;
      Regroup(FrameWords(frame), Print(e.left, 0), [Sign(OrOp)] + Print(e.right, 1));
    } else {
      assert Print(e, 0) == Print(e, 1);
      ExtendedPrints(frame.ands, e);
      hide Extended;
      Regroup(OrWords(frame.ors), AndWords(frame.ands), Print(e, 1));
    }
  }

  lemma {:induction false} OpenedPrints(stack: seq<Frame>, frame: Frame, n: nat)
    ensures
      var (after, inner) := Opened(stack, frame, n);
      StackWords(after) + FrameWords(inner) == StackWords(stack) + FrameWords(frame) + Signs(Open, n)
    decreases n
  {
    hide *;
    OneMoreFrame(stack, frame);
    OneMoreOpened(stack, frame, n);
    if n > 0 {
      OpenedPrints(stack + [frame], BLANK, n - 1);
      SameWords(StackWords(stack) + FrameWords(frame), Sign(Open), FrameWords(BLANK), Signs(Open, n - 1));
    } else {
      assert StackWords(stack) + FrameWords(frame) + [] == StackWords(stack) + FrameWords(frame);
    }
  }

  lemma OneMoreOpened(stack: seq<Frame>, frame: Frame, n: nat)
    ensures FrameWords(BLANK) == []
    ensures n == 0 ==> Opened(stack, frame, n) == (stack, frame) && Signs(Open, n) == []
    ensures n > 0 ==> Opened(stack, frame, n) == Opened(stack + [frame], BLANK, n - 1)
    ensures n > 0 ==> Signs(Open, n) == [Sign(Open)] + Signs(Open, n - 1)
  {
  }

  lemma SameWords(a: Words, word: Word, b: Words, c: Words)
    ensures a + [word] + b + c == a + ([word] + (b + c))
    ensures b == [] ==> a + [word] + b + c == a + ([word] + c)
  {
  }

  lemma OneMoreFrame(stack: seq<Frame>, frame: Frame)
    ensures StackWords(stack + [frame]) == StackWords(stack) + FrameWords(frame) + [Sign(Open)]
  {
    assert (stack + [frame])[..|stack|] == stack;
  }

  lemma AttachedPrints(frame: Frame, part: Part)
    ensures PartWords(Attached(frame, part)) == FrameWords(frame) + [Sign(Open)] + PartWords(part) + [Sign(Close)]
  {
    var group := Paren(Whole(part));
    WholePrints(part);
    ExtendedPrints(frame.ands, group);
    assert Print(group, 1) == Grouped(PartWords(part));
    hide Extended, Whole, Print, AndWords, OrWords;
    Regroup(OrWords(frame.ors), AndWords(frame.ands), Grouped(PartWords(part)));
    hide *;
    GroupedAtTheEnd(FrameWords(frame), PartWords(part));
  }

  lemma GroupedAtTheEnd(before: Words, words: Words)
    ensures before + Grouped(words) == before + [Sign(Open)] + words + [Sign(Close)]
  {
  }

  lemma {:induction false} ClosedPrints(stack: seq<Frame>, part: Part, n: nat)
    requires n <= |stack|
    ensures
      var (after, outer) := Closed(stack, part, n);
      StackWords(after) + PartWords(outer) == StackWords(stack) + PartWords(part) + Signs(Close, n)
    decreases n
  {
    if n > 0 {
      var fewer, frame := stack[..|stack| - 1], stack[|stack| - 1];
      AttachedPrints(frame, part);
      assert StackWords(stack) == StackWords(fewer) + FrameWords(frame) + [Sign(Open)];
      assert Signs(Close, n) == [Sign(Close)] + Signs(Close, n - 1);
      assert Closed(stack, part, n) == Closed(fewer, Attached(frame, part), n - 1);
      hide *;
      ClosedPrints(fewer, Attached(frame, part), n - 1);
      var inside := FrameWords(frame) + [Sign(Open)] + PartWords(part);
      Regroup(StackWords(fewer), inside, [Sign(Close)]);
      Regroup(StackWords(fewer) + inside, [Sign(Close)], Signs(Close, n - 1));
      Regroup(StackWords(fewer), FrameWords(frame) + [Sign(Open)], PartWords(part));
      Regroup(StackWords(fewer), FrameWords(frame), [Sign(Open)]);
    } else {
      assert StackWords(stack) + PartWords(part) + [] == StackWords(stack) + PartWords(part);
    }
  }

  lemma TakenPrints(stack: seq<Frame>, frame: Frame, item: Item)
    requires item.closes <= |stack| + item.opens
    ensures
      var (after, part) := Taken(stack, frame, item);
      StackWords(after) + PartWords(part) == StackWords(stack) + FrameWords(frame) + ItemWords(item)
  {
    var (opened1, inner) := Opened(stack, frame, item.opens);
    OpenedPrints(stack, frame, item.opens);
    SplicedPrints(inner, item.tree);
    ClosedPrints(opened1, Spliced(inner, item.tree), item.closes);
    hide StackWords, PartWords, FrameWords, Signs, Opened, Closed, Spliced, Print;
    Regroup(StackWords(opened1), FrameWords(inner), Print(item.tree, 0));
    SixParts(StackWords(stack) + FrameWords(frame), Signs(Open, item.opens), Print(item.tree, 0),
             Signs(Close, item.closes));
  }

  lemma SixParts(a: Words, b: Words, c: Words, d: Words)
    ensures a + b + c + d == a + (b + c + d)
  {
  }

  /** The tree built from a balanced chain has the chain's words. */
  lemma {:induction false} BuiltPrints(items: seq<Item>, stack: seq<Frame>, frame: Frame)
    requires items != [] && Balanced(items, |stack|)
    ensures Print(Built(items, stack, frame), 0) == StackWords(stack) + FrameWords(frame) + Joined(items)
    decreases |items|
  {
    var (after, part) := Taken(stack, frame, items[0]);
    var next := Frame(part.ors, Some(part.term));
    TakenPrints(stack, frame, items[0]);
    if |items| == 1 {
      WholePrints(part);
      assert after == [];
      assert StackWords(after) == [];
      hide Print, PartWords, FrameWords, ItemWords, Taken, Whole;
      assert [] + PartWords(part) == PartWords(part);
      assert ItemWords(items[0]) + [] == ItemWords(items[0]);
    } else {
      BuiltPrints(items[1..], after, next);
      JoinedMore(items[0], items[1..]);
      assert items == [items[0]] + items[1..];
      Regroup(OrWords(part.ors), Print(part.term, 1), [Sign(AndOp)]);
      assert FrameWords(next) == PartWords(part) + [Sign(AndOp)];
      hide Print, PartWords, FrameWords, ItemWords, Taken, Whole, Joined, StackWords, Balanced;
      Regroup(StackWords(after), PartWords(part), [Sign(AndOp)]);
      Regroup(StackWords(after) + PartWords(part), [Sign(AndOp)], Joined(items[1..]));
      Regroup(StackWords(stack) + FrameWords(frame), ItemWords(items[0]), [Sign(AndOp)] + Joined(items[1..]));
    }
  }

  // ---- only a balanced chain is the text of a tree ----

  /** How many groups are open behind some words, or none if one was closed that was not open. */
  function Scan(words: Words, depth: nat): Option<nat> {
    if words == [] then Some(depth)
    else if words[0] == Sign(Open) then Scan(words[1..], depth + 1)
    else if words[0] != Sign(Close) then Scan(words[1..], depth)
    else if depth == 0 then None
    else Scan(words[1..], depth - 1)
  }

  lemma {:induction false} ScanTwo(a: Words, b: Words, depth: nat)
    ensures Scan(a + b, depth) == match Scan(a, depth) case None => None case Some(d) => Scan(b, d)
    decreases |a|
  {
    if a == [] {
      assert a + b == b;
    } else {
      assert (a + b)[1..] == a[1..] + b;
      ScanTwo(a[1..], b, if a[0] == Sign(Open) then depth + 1
                         else if a[0] == Sign(Close) && depth > 0 then depth - 1 else depth);
    }
  }

  lemma ScanOperator(word: Word, depth: nat)
    requires word != Sign(Open) && word != Sign(Close)
    ensures Scan([word], depth) == Some(depth)
  {
  }

  lemma ScanGroup(words: Words, depth: nat)
    requires Scan(words, depth + 1) == Some(depth + 1)
    ensures Scan(Grouped(words), depth) == Some(depth)
  {
    ScanTwo([Sign(Open)], words, depth);
    ScanTwo([Sign(Open)] + words, [Sign(Close)], depth);
    assert Scan([Sign(Open)], depth) == Scan([], depth + 1) == Some(depth + 1);
    assert Scan([Sign(Close)], depth + 1) == Scan([], depth) == Some(depth);
  }

  lemma ScanThree(left: Words, word: Word, right: Words, depth: nat)
    requires word != Sign(Open) && word != Sign(Close)
    requires Scan(left, depth) == Some(depth) && Scan(right, depth) == Some(depth)
    ensures Scan(left + [word] + right, depth) == Some(depth)
  {
    ScanTwo(left, [word], depth);
    ScanTwo(left + [word], right, depth);
    ScanOperator(word, depth);
  }

  /** A tree's words close every group they open. */
  lemma {:induction false} TreesAreBalanced(e: Expr, level: nat, depth: nat)
    ensures Scan(Print(e, level), depth) == Some(depth)
    decreases e, 1
  {
    if Binding(e) >= level {
      BareTreesAreBalanced(e, depth);
    } else {
      BareTreesAreBalanced(e, depth + 1);
      ScanGroup(Bare(e), depth);
    }
  }

  lemma {:induction false} BareTreesAreBalanced(e: Expr, depth: nat)
    ensures Scan(Bare(e), depth) == Some(depth)
    decreases e, 0
  {
    hide Scan;
    match e
    case Leaf(atom, wraps) => ScanOperator(Held(atom, wraps), depth);
    case Not(inner) =>
      TreesAreBalanced(inner, 2, depth);
      ScanOperator(Sign(NotOp), depth);
      ScanTwo([Sign(NotOp)], Print(inner, 2), depth);
    case Paren(inner) =>
      TreesAreBalanced(inner, 0, depth + 1);
      ScanGroup(Print(inner, 0), depth);
    case Cmp(equal, left, right) =>
      TreesAreBalanced(left, 4, depth);
      TreesAreBalanced(right, 4, depth);
      ScanThree(Print(left, 4), Sign(if equal then EqualOp else DiffersOp), Print(right, 4), depth);
    case And(left, right) =>
      TreesAreBalanced(left, 1, depth);
      TreesAreBalanced(right, 2, depth);
      ScanThree(Print(left, 1), Sign(AndOp), Print(right, 2), depth);
    case Or(left, right) =>
      TreesAreBalanced(left, 0, depth);
      TreesAreBalanced(right, 1, depth);
      ScanThree(Print(left, 0), Sign(OrOp), Print(right, 1), depth);
  }

  lemma {:induction false} ScanSigns(n: nat, depth: nat)
    ensures Scan(Signs(Open, n), depth) == Some(depth + n)
    ensures Scan(Signs(Close, n), depth) == if n <= depth then Some(depth - n) else None
    decreases n
  {
    if n > 0 {
      ScanSigns(n - 1, depth + 1);
      if depth > 0 { ScanSigns(n - 1, depth - 1); }
      assert Signs(Open, n)[1..] == Signs(Open, n - 1) && Signs(Close, n)[1..] == Signs(Close, n - 1);
    }
  }

  lemma ScanItem(item: Item, depth: nat)
    ensures Scan(ItemWords(item), depth)
         == if item.closes <= depth + item.opens then Some(depth + item.opens - item.closes) else None
  {
    var opens, words := Signs(Open, item.opens), Print(item.tree, 0);
    ScanSigns(item.opens, depth);
    ScanSigns(item.closes, depth + item.opens);
    TreesAreBalanced(item.tree, 0, depth + item.opens);
    hide Scan, Print, Signs;
    ScanTwo(opens, words, depth);
    ScanTwo(opens + words, Signs(Close, item.closes), depth);
  }

  lemma {:induction false} ScanJoined(items: seq<Item>, depth: nat)
    requires items != []
    ensures Scan(Joined(items), depth) == Some(0) <==> Balanced(items, depth)
    decreases |items|
  {
    ScanItem(items[0], depth);
    assert items == [items[0]] + items[1..];
    hide Scan, ItemWords;
    if |items| == 1 {
      assert Joined(items) == ItemWords(items[0]) + [];
      assert ItemWords(items[0]) + [] == ItemWords(items[0]);
      assert items[1..] == [];
    } else {
      JoinedMore(items[0], items[1..]);
      ScanTwo(ItemWords(items[0]), [Sign(AndOp)] + Joined(items[1..]), depth);
      if items[0].closes <= depth + items[0].opens {
        var after := depth + items[0].opens - items[0].closes;
        ScanOperator(Sign(AndOp), after);
        ScanTwo([Sign(AndOp)], Joined(items[1..]), after);
        ScanJoined(items[1..], after);
      }
    }
  }

  // ---- how deep the built tree nests, and what it lacks ----

  function OptionNest(e: Option<Expr>, level: nat): nat {
    if e.None? then 0 else Nest(e.value, level)
  }

  function FrameNest(frame: Frame): nat {
    Max(OptionNest(frame.ors, 0), OptionNest(frame.ands, 1))
  }

  function PartNest(part: Part): nat {
    Max(OptionNest(part.ors, 0), Nest(part.term, 1))
  }

  function StackNest(stack: seq<Frame>): nat {
    if stack == [] then 0 else Max(StackNest(stack[..|stack| - 1]), |stack| - 1 + FrameNest(stack[|stack| - 1]))
  }

  lemma WholeNests(part: Part)
    ensures Nest(Whole(part), 0) == PartNest(part)
  {
    var e := part.term;
    assert Nest(Whole(part), 0) == BareNest(Whole(part));
    if part.ors.None? {
      assert e.Or? ==> Nest(e, 1) == 1 + Nest(e, 0) == BareNest(Paren(e));
      assert !e.Or? ==> Nest(e, 1) == Nest(e, 0);
    }
  }

  lemma {:induction false} ExtendedNests(ands: Option<Expr>, e: Expr)
    ensures Nest(Extended(ands, e), 1) == Max(OptionNest(ands, 1), Nest(e, 1))
    decreases e
  {
    if ands.Some? {
      var extended := Extended(ands, e);
      assert Nest(extended, 1) == BareNest(extended);
      if e.And? {
        ExtendedNests(ands, e.left);
        assert Nest(e, 1) == BareNest(e) == Max(Nest(e.left, 1), Nest(e.right, 2));
        assert BareNest(extended) == Max(Nest(Extended(ands, e.left), 1), Nest(e.right, 2));
      } else {
        assert Nest(e, 1) == Nest(e, 2);
      }
    }
  }

  lemma {:induction false} SplicedNests(frame: Frame, e: Expr)
    ensures PartNest(Spliced(frame, e)) == Max(FrameNest(frame), Nest(e, 0))
    decreases e
  {
    if e.Or? {
      SplicedNests(frame, e.left);
      WholeNests(Spliced(frame, e.left));
    } else {
      ExtendedNests(frame.ands, e);
      assert Nest(e, 0) == Nest(e, 1);
    }
  }

  lemma OneMoreNest(stack: seq<Frame>, frame: Frame)
    ensures StackNest(stack + [frame]) == Max(StackNest(stack), |stack| + FrameNest(frame))
  {
    assert (stack + [frame])[..|stack|] == stack;
  }

  lemma {:induction false} OpenedNests(stack: seq<Frame>, frame: Frame, n: nat)
    ensures
      var (after, inner) := Opened(stack, frame, n);
      Max(StackNest(after), |after| + FrameNest(inner))
      == Max(Max(StackNest(stack), |stack| + FrameNest(frame)), if n == 0 then 0 else |stack| + n)
    decreases n
  {
    OneMoreNest(stack, frame);
    if n > 0 { OpenedNests(stack + [frame], BLANK, n - 1); }
  }

  lemma AttachedNests(frame: Frame, part: Part)
    ensures PartNest(Attached(frame, part)) == Max(FrameNest(frame), 1 + PartNest(part))
  {
    WholeNests(part);
    ExtendedNests(frame.ands, Paren(Whole(part)));
    hide Extended, Whole;
  }

  lemma {:induction false} ClosedNests(stack: seq<Frame>, part: Part, n: nat)
    requires n <= |stack|
    ensures
      var (after, outer) := Closed(stack, part, n);
      Max(StackNest(after), |after| + PartNest(outer)) == Max(StackNest(stack), |stack| + PartNest(part))
    decreases n
  {
    if n > 0 {
      AttachedNests(stack[|stack| - 1], part);
      ClosedNests(stack[..|stack| - 1], Attached(stack[|stack| - 1], part), n - 1);
      hide Attached, PartNest, FrameNest;
    }
  }

  lemma TakenNests(stack: seq<Frame>, frame: Frame, item: Item)
    requires item.closes <= |stack| + item.opens
    ensures
      var (after, part) := Taken(stack, frame, item);
      Max(StackNest(after), |after| + PartNest(part))
      == Max(Max(StackNest(stack), |stack| + FrameNest(frame)), |stack| + item.opens + Nest(item.tree, 0))
  {
    hide *;
    var (opened1, inner) := Opened(stack, frame, item.opens);
    var spliced := Spliced(inner, item.tree);
    TakenInSteps(stack, frame, item);
    OpenedNests(stack, frame, item.opens);
    SplicedNests(inner, item.tree);
    ClosedNests(opened1, spliced, item.closes);
    MaxInside(Max(StackNest(stack), |stack| + FrameNest(frame)), StackNest(opened1), |stack|, item.opens,
              FrameNest(inner), Nest(item.tree, 0));
  }

  lemma TakenInSteps(stack: seq<Frame>, frame: Frame, item: Item)
    requires item.closes <= |stack| + item.opens
    ensures
      var (after, inner) := Opened(stack, frame, item.opens);
      Taken(stack, frame, item) == Closed(after, Spliced(inner, item.tree), item.closes)
  {
  }

  lemma MaxInside(before: nat, outside: nat, depth: nat, opens: nat, inside: nat, own: nat)
    requires Max(outside, depth + opens + inside) == Max(before, if opens == 0 then 0 else depth + opens)
    ensures Max(outside, depth + opens + Max(inside, own)) == Max(before, depth + opens + own)
  {
  }

  lemma {:induction false} BuiltNests(items: seq<Item>, stack: seq<Frame>, frame: Frame)
    requires items != [] && Balanced(items, |stack|)
    ensures Nest(Built(items, stack, frame), 0)
         == Max(Max(StackNest(stack), |stack| + FrameNest(frame)), Deepest(items, |stack|))
    decreases |items|
  {
    var (after, part) := Taken(stack, frame, items[0]);
    TakenNests(stack, frame, items[0]);
    hide Taken, Whole, Nest, StackNest;
    if |items| == 1 {
      WholeNests(part);
      assert after == [];
      EmptyStackNest();
      assert items[1..] == [];
    } else {
      BuiltNests(items[1..], after, Frame(part.ors, Some(part.term)));
      assert FrameNest(Frame(part.ors, Some(part.term))) == PartNest(part);
    }
  }

  lemma EmptyStackNest()
    ensures StackNest([]) == 0
  {
  }

  function OptionLacking(e: Option<Expr>, ctx: Context): set<string> {
    if e.None? then {} else Lacking(e.value, ctx)
  }

  function FrameLacking(frame: Frame, ctx: Context): set<string> {
    OptionLacking(frame.ors, ctx) + OptionLacking(frame.ands, ctx)
  }

  function PartLacking(part: Part, ctx: Context): set<string> {
    OptionLacking(part.ors, ctx) + Lacking(part.term, ctx)
  }

  function StackLacking(stack: seq<Frame>, ctx: Context): set<string> {
    if stack == [] then {}
    else StackLacking(stack[..|stack| - 1], ctx) + FrameLacking(stack[|stack| - 1], ctx)
  }

  function ItemsLacking(items: seq<Item>, ctx: Context): set<string> {
    if items == [] then {} else Lacking(items[0].tree, ctx) + ItemsLacking(items[1..], ctx)
  }

  lemma WholeLacks(part: Part, ctx: Context)
    ensures Lacking(Whole(part), ctx) == PartLacking(part, ctx)
  {
  }

  lemma {:induction false} ExtendedLacks(ands: Option<Expr>, e: Expr, ctx: Context)
    ensures Lacking(Extended(ands, e), ctx) == OptionLacking(ands, ctx) + Lacking(e, ctx)
    decreases e
  {
    if ands.Some? && e.And? { ExtendedLacks(ands, e.left, ctx); }
  }

  lemma {:induction false} SplicedLacks(frame: Frame, e: Expr, ctx: Context)
    ensures PartLacking(Spliced(frame, e), ctx) == FrameLacking(frame, ctx) + Lacking(e, ctx)
    decreases e
  {
    if e.Or? {
      SplicedLacks(frame, e.left, ctx);
      WholeLacks(Spliced(frame, e.left), ctx);
    } else {
      ExtendedLacks(frame.ands, e, ctx);
    }
  }

  lemma {:induction false} OpenedLacks(stack: seq<Frame>, frame: Frame, n: nat, ctx: Context)
    ensures
      var (after, inner) := Opened(stack, frame, n);
      StackLacking(after, ctx) + FrameLacking(inner, ctx) == StackLacking(stack, ctx) + FrameLacking(frame, ctx)
    decreases n
  {
    if n > 0 {
      assert (stack + [frame])[..|stack|] == stack;
      OpenedLacks(stack + [frame], BLANK, n - 1, ctx);
    }
  }

  lemma AttachedLacks(frame: Frame, part: Part, ctx: Context)
    ensures PartLacking(Attached(frame, part), ctx) == FrameLacking(frame, ctx) + PartLacking(part, ctx)
  {
    WholeLacks(part, ctx);
    ExtendedLacks(frame.ands, Paren(Whole(part)), ctx);
    hide Extended, Whole;
  }

  lemma {:induction false} ClosedLacks(stack: seq<Frame>, part: Part, n: nat, ctx: Context)
    requires n <= |stack|
    ensures
      var (after, outer) := Closed(stack, part, n);
      StackLacking(after, ctx) + PartLacking(outer, ctx) == StackLacking(stack, ctx) + PartLacking(part, ctx)
    decreases n
  {
    if n > 0 {
      AttachedLacks(stack[|stack| - 1], part, ctx);
      ClosedLacks(stack[..|stack| - 1], Attached(stack[|stack| - 1], part), n - 1, ctx);
      hide Attached, PartLacking, FrameLacking;
    }
  }

  lemma {:induction false} BuiltLacks(items: seq<Item>, stack: seq<Frame>, frame: Frame, ctx: Context)
    requires items != [] && Balanced(items, |stack|)
    ensures Lacking(Built(items, stack, frame), ctx)
         == StackLacking(stack, ctx) + FrameLacking(frame, ctx) + ItemsLacking(items, ctx)
    decreases |items|
  {
    var item := items[0];
    var (opened1, inner) := Opened(stack, frame, item.opens);
    var (after, part) := Taken(stack, frame, item);
    OpenedLacks(stack, frame, item.opens, ctx);
    SplicedLacks(inner, item.tree, ctx);
    ClosedLacks(opened1, Spliced(inner, item.tree), item.closes, ctx);
    hide Opened, Closed, Spliced, Lacking, StackLacking;
    if |items| == 1 {
      WholeLacks(part, ctx);
      assert after == [];
      EmptyStackLacks(ctx);
      assert items[1..] == [];
    } else {
      BuiltLacks(items[1..], after, Frame(part.ors, Some(part.term)), ctx);
      assert FrameLacking(Frame(part.ors, Some(part.term)), ctx) == PartLacking(part, ctx);
    }
  }

  lemma EmptyStackLacks(ctx: Context)
    ensures StackLacking([], ctx) == {}
  {
  }

  // ---- which chains are read ----

  /** The tree a balanced chain of guards is read as. */
  function ReadAs(es: seq<Expr>): Expr
    requires |es| >= 2 && Balanced(Places(es), 0)
  {
    Built(Places(es), [], BLANK)
  }

  lemma ReadAsHasTheWords(es: seq<Expr>)
    requires |es| >= 2 && Balanced(Places(es), 0)
    ensures Print(ReadAs(es), 0) == Joined(Places(es)) && Nest(ReadAs(es), 0) == Deepest(Places(es), 0)
  {
    var items := Places(es);
    BuiltPrints(items, [], BLANK);
    BuiltNests(items, [], BLANK);
    EmptyStackNest();
    assert StackWords([]) == [] && FrameWords(BLANK) == [] && FrameNest(BLANK) == 0;
    assert [] + [] + Joined(items) == Joined(items);
  }

  /**
   * Two or more guards joined by nested calls are read if and only if the parentheses left around
   * them are balanced and the descent has room for each guard in its place; then they are read as the
   * tree those parentheses make of them.
   */
  lemma AChainIsReadExactlyWhen(guards: seq<Tokens>, es: seq<Expr>, ctx: Context, p: Platform)
    requires |guards| >= 2 && AreTextsOf(guards, es)
    ensures
      var places, read := Places(es), Evaluate(Chain(guards), ctx, p);
      && (read.Ok? <==> Balanced(places, 0) && Deepest(places, 0) <= MAX_DEPTH)
      && (Balanced(places, 0) ==> read == Answer(ReadAs(es), ctx, p))
  {
    var places, tokens := Places(es), Chain(guards);
    ChainWords(guards, es);
    ATextIsReadExactlyWhen(tokens, ctx, p);
    ScanJoined(places, 0);
    if Balanced(places, 0) {
      ReadAsHasTheWords(es);
      TextsOfATreeReadAsIt(ReadAs(es), tokens, ctx, p);
    } else if Evaluate(tokens, ctx, p).Ok? {
      var e: Expr :| Condensed(tokens) == Print(e, 0) && Nest(e, 0) <= MAX_DEPTH;
      TreesAreBalanced(e, 0, 0);
      assert false;
    }
    hide Condensed, Print, Nest, Evaluate, Places, Chain, Joined, Balanced, Deepest, Built;
  }
}
