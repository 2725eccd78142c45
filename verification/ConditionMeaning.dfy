/**
 * What a chain of joined guards means once it is read: all of its guards, unless one of them joins
 * with `||` and has lost a parenthesis. That one then runs into its neighbours.
 */
module ConditionMeaning {
  import opened Prelude
  import opened Conditions
  import opened ConditionWords
  import opened ConditionPrinting
  import opened ConditionGrammar
  import opened ConditionGuards
  import opened ConditionChains

  /** All of a chain's guards, three-valued. */
  function Meaning(es: seq<Expr>, ctx: Context, p: Platform): Option<bool>
    requires es != []
  {
    if |es| == 1 then Verdict(es[0], ctx, p) else Both(Verdict(es[0], ctx, p), Meaning(es[1..], ctx, p))
  }

  function Missing(es: seq<Expr>, ctx: Context): set<string> {
    if es == [] then {} else Lacking(es[0], ctx) + Missing(es[1..], ctx)
  }

  /** Whether the guard joins with `||` and takes parentheses that joining puts around it. */
  predicate Loose(e: Expr) {
    e.Or? && (TakesOpens(Print(e, 0)) || TakesCloses(Print(e, 0)))
  }

  predicate NoneLoose(es: seq<Expr>) {
    forall i | 0 <= i < |es| :: !Loose(es[i])
  }

  // ---- a chain without loose guards ----

  predicate Kept(items: seq<Item>) {
    forall i | 0 <= i < |items| :: items[i].tree.Or? ==> items[i].opens > 0 && items[i].closes > 0
  }

  lemma PlacedIsKept(e: Expr, opens: nat, closes: nat)
    requires opens > 0 && closes > 0 && !Loose(e)
    ensures
      var item := Placed(e, opens, closes);
      item.tree.Or? ==> item.opens > 0 && item.closes > 0
  {
    hide TakesOpens, TakesCloses, Print;
  }

  lemma {:induction false} InnerIsKept(es: seq<Expr>, extra: nat)
    requires es != [] && NoneLoose(es)
    ensures Kept(Inner(es, extra))
    decreases |es|
  {
    hide Placed, Loose;
    PlacedIsKept(es[0], if |es| == 1 then 1 else 2, if |es| == 1 then 1 + extra else 1);
    if |es| > 1 { InnerIsKept(es[1..], extra + 1); }
  }

  function Worth(ands: Option<Expr>, ctx: Context, p: Platform): Option<bool> {
    if ands.None? then Some(true) else Verdict(ands.value, ctx, p)
  }

  function StackWorth(stack: seq<Frame>, ctx: Context, p: Platform): Option<bool> {
    if stack == [] then Some(true)
    else Both(StackWorth(stack[..|stack| - 1], ctx, p), Worth(stack[|stack| - 1].ands, ctx, p))
  }

  predicate NoOrs(stack: seq<Frame>) {
    forall i | 0 <= i < |stack| :: stack[i].ors.None?
  }

  lemma BothAssociates(a: Option<bool>, b: Option<bool>, c: Option<bool>)
    ensures Both(Both(a, b), c) == Both(a, Both(b, c)) && Both(Some(true), a) == a == Both(a, Some(true))
  {
  }

  lemma {:induction false} ExtendedMeans(ands: Option<Expr>, e: Expr, ctx: Context, p: Platform)
    ensures Verdict(Extended(ands, e), ctx, p) == Both(Worth(ands, ctx, p), Verdict(e, ctx, p))
    decreases e
  {
    BothAssociates(Verdict(e, ctx, p), None, None);
    if ands.Some? && e.And? {
      ExtendedMeans(ands, e.left, ctx, p);
      BothAssociates(Verdict(ands.value, ctx, p), Verdict(e.left, ctx, p), Verdict(e.right, ctx, p));
    }
  }

  /** Where nothing stands before a tree in its group, or it is no alternative, the group means it too. */
  lemma {:induction false} SplicedMeans(frame: Frame, e: Expr, ctx: Context, p: Platform)
    requires frame.ors.None? && (e.Or? ==> frame.ands.None?)
    ensures Verdict(Whole(Spliced(frame, e)), ctx, p) == Both(Worth(frame.ands, ctx, p), Verdict(e, ctx, p))
    decreases e
  {
    BothAssociates(Verdict(e, ctx, p), None, None);
    if e.Or? {
      SplicedMeans(frame, e.left, ctx, p);
      BothAssociates(Verdict(e.left, ctx, p), None, None);
    } else {
      ExtendedMeans(frame.ands, e, ctx, p);
    }
  }

  lemma {:induction false} OpenedMeans(stack: seq<Frame>, frame: Frame, n: nat, ctx: Context, p: Platform)
    requires NoOrs(stack) && frame.ors.None?
    ensures
      var (after, inner) := Opened(stack, frame, n);
      && NoOrs(after) && inner.ors.None? && (n > 0 ==> inner.ands.None?)
      && Both(StackWorth(after, ctx, p), Worth(inner.ands, ctx, p))
         == Both(StackWorth(stack, ctx, p), Worth(frame.ands, ctx, p))
    decreases n
  {
    if n > 0 {
      var more := stack + [frame];
      assert more[..|stack|] == stack;
      OpenedMeans(more, BLANK, n - 1, ctx, p);
      BothAssociates(StackWorth(more, ctx, p), None, None);
      hide Verdict;
    }
  }

  lemma AttachedMeans(frame: Frame, part: Part, ctx: Context, p: Platform)
    requires frame.ors.None?
    ensures Attached(frame, part).ors.None?
    ensures Verdict(Whole(Attached(frame, part)), ctx, p)
         == Both(Worth(frame.ands, ctx, p), Verdict(Whole(part), ctx, p))
  {
    var group := Paren(Whole(part));
    ExtendedMeans(frame.ands, group, ctx, p);
    assert Verdict(group, ctx, p) == Verdict(Whole(part), ctx, p);
  }

  lemma {:induction false} ClosedMeans(stack: seq<Frame>, part: Part, n: nat, ctx: Context, p: Platform)
    requires n <= |stack| && NoOrs(stack)
    ensures
      var (after, outer) := Closed(stack, part, n);
      && NoOrs(after) && (n > 0 || part.ors.None? ==> outer.ors.None?)
      && Both(StackWorth(after, ctx, p), Verdict(Whole(outer), ctx, p))
         == Both(StackWorth(stack, ctx, p), Verdict(Whole(part), ctx, p))
    decreases n
  {
    if n > 0 {
      var fewer, frame := stack[..|stack| - 1], stack[|stack| - 1];
      AttachedMeans(frame, part, ctx, p);
      ClosedMeans(fewer, Attached(frame, part), n - 1, ctx, p);
      hide Attached, Whole, Verdict;
      BothAssociates(StackWorth(fewer, ctx, p), Worth(frame.ands, ctx, p), Verdict(Whole(part), ctx, p));
    }
  }

  lemma TakenMeans(stack: seq<Frame>, frame: Frame, item: Item, ctx: Context, p: Platform)
    requires item.closes <= |stack| + item.opens && NoOrs(stack) && frame.ors.None? && Kept([item])
    ensures
      var (after, part) := Taken(stack, frame, item);
      && NoOrs(after) && part.ors.None?
      && Both(StackWorth(after, ctx, p), Verdict(part.term, ctx, p))
         == Both(Both(StackWorth(stack, ctx, p), Worth(frame.ands, ctx, p)), Verdict(item.tree, ctx, p))
  {
    assert Kept([item]) ==> ([item][0].tree.Or? ==> item.opens > 0 && item.closes > 0);
    var (opened1, inner) := Opened(stack, frame, item.opens);
    var spliced := Spliced(inner, item.tree);
    TakenInSteps(stack, frame, item);
    OpenedMeans(stack, frame, item.opens, ctx, p);
    SplicedMeans(inner, item.tree, ctx, p);
    ClosedMeans(opened1, spliced, item.closes, ctx, p);
    WholeMeansItsTerm(Taken(stack, frame, item).1, ctx, p);
    assert !item.tree.Or? ==> spliced.ors.None?;
    hide Opened, Closed, Spliced, Verdict, Whole, StackWorth, Taken;
    BothAssociates(StackWorth(opened1, ctx, p), Worth(inner.ands, ctx, p), Verdict(item.tree, ctx, p));
  }

  lemma WholeMeansItsTerm(part: Part, ctx: Context, p: Platform)
    ensures part.ors.None? ==> Verdict(Whole(part), ctx, p) == Verdict(part.term, ctx, p)
  {
  }

  function ItemsMeaning(items: seq<Item>, ctx: Context, p: Platform): Option<bool> {
    if items == [] then Some(true) else Both(Verdict(items[0].tree, ctx, p), ItemsMeaning(items[1..], ctx, p))
  }

  lemma {:induction false} BuiltMeans(items: seq<Item>, stack: seq<Frame>, frame: Frame, ctx: Context, p: Platform)
    requires items != [] && Balanced(items, |stack|) && NoOrs(stack) && frame.ors.None? && Kept(items)
    ensures Verdict(Built(items, stack, frame), ctx, p)
         == Both(Both(StackWorth(stack, ctx, p), Worth(frame.ands, ctx, p)), ItemsMeaning(items, ctx, p))
    decreases |items|
  {
    var (after, part) := Taken(stack, frame, items[0]);
    TakenMeans(stack, frame, items[0], ctx, p);
    var before := Both(StackWorth(stack, ctx, p), Worth(frame.ands, ctx, p));
    BothAssociates(before, Verdict(items[0].tree, ctx, p), ItemsMeaning(items[1..], ctx, p));
    BothAssociates(Verdict(items[0].tree, ctx, p), None, None);
    if |items| == 1 {
      WholeMeansItsTerm(part, ctx, p);
      BothAssociates(Verdict(part.term, ctx, p), None, None);
      assert after == [];
      assert items[1..] == [];
    } else {
      BuiltMeans(items[1..], after, Frame(part.ors, Some(part.term)), ctx, p);
    }
    hide Taken, Verdict, Whole, Built, Both;
  }

  // ---- the guards of a chain, in their places ----

  lemma PlacedMeansTheSame(e: Expr, opens: nat, closes: nat, ctx: Context, p: Platform)
    ensures
      var tree := Placed(e, opens, closes).tree;
      Verdict(tree, ctx, p) == Verdict(e, ctx, p) && Lacking(tree, ctx) == Lacking(e, ctx) && tree.Or? == e.Or?
  {
    RaisedMeansTheSame(e, opens, ctx, p);
    hide Verdict, Lacking, Print;
  }

  lemma {:induction false} InnerMeans(es: seq<Expr>, extra: nat, ctx: Context, p: Platform)
    requires es != []
    ensures ItemsMeaning(Inner(es, extra), ctx, p) == Meaning(es, ctx, p)
    ensures ItemsLacking(Inner(es, extra), ctx) == Missing(es, ctx)
    decreases |es|
  {
    hide Placed, Verdict, Lacking;
    PlacedMeansTheSame(es[0], if |es| == 1 then 1 else 2, if |es| == 1 then 1 + extra else 1, ctx, p);
    var items := Inner(es, extra);
    if |es| == 1 {
      assert items[1..] == [] && es[1..] == [];
      BothAssociates(Verdict(es[0], ctx, p), None, None);
    } else {
      InnerMeans(es[1..], extra + 1, ctx, p);
      assert items[1..] == Inner(es[1..], extra + 1);
    }
  }

  lemma PlacesMean(es: seq<Expr>, ctx: Context, p: Platform)
    requires |es| >= 2
    ensures ItemsMeaning(Places(es), ctx, p) == Meaning(es, ctx, p)
    ensures ItemsLacking(Places(es), ctx) == Missing(es, ctx)
  {
    PlacedMeansTheSame(es[0], 1, 1, ctx, p);
    InnerMeans(es[1..], 0, ctx, p);
    assert Places(es)[1..] == Inner(es[1..], 0);
    hide Placed, Verdict, Lacking, Inner;
  }

  lemma PlacesAreKept(es: seq<Expr>)
    requires |es| >= 2 && NoneLoose(es)
    ensures Kept(Places(es))
  {
    assert es[0] == [es[0]][0] && !Loose(es[0]);
    PlacedIsKept(es[0], 1, 1);
    InnerIsKept(es[1..], 0);
    hide Placed, Loose, Inner;
  }

  /** The tree a balanced chain is read as lacks what its guards lack, and means all unless one is loose. */
  lemma ABalancedChainMeansItsGuards(es: seq<Expr>, ctx: Context, p: Platform)
    requires |es| >= 2 && Balanced(Places(es), 0)
    ensures Lacking(ReadAs(es), ctx) == Missing(es, ctx)
    ensures NoneLoose(es) ==> Verdict(ReadAs(es), ctx, p) == Meaning(es, ctx, p)
  {
    PlacesMean(es, ctx, p);
    BuiltLacks(Places(es), [], BLANK, ctx);
    EmptyStackLacks(ctx);
    if NoneLoose(es) {
      PlacesAreKept(es);
      BuiltMeans(Places(es), [], BLANK, ctx, p);
      BothAssociates(Some(true), Some(true), None);
      BothAssociates(Meaning(es, ctx, p), None, None);
    }
    hide Places, Built, Lacking, Verdict, Meaning, ItemsMeaning, Both;
  }

  /** A chain that is read, and has no loose guard, is decided as all of its guards are. */
  lemma AChainMeansAllItsGuards(guards: seq<Tokens>, es: seq<Expr>, ctx: Context, p: Platform)
    requires |guards| >= 2 && AreTextsOf(guards, es) && NoneLoose(es) && Evaluate(Chain(guards), ctx, p).Ok?
    ensures
      var verdict := Meaning(es, ctx, p);
      Evaluate(Chain(guards), ctx, p) == Ok(Condition(verdict, if verdict.Some? then {} else Missing(es, ctx)))
  {
    AChainIsReadExactlyWhen(guards, es, ctx, p);
    ABalancedChainMeansItsGuards(es, ctx, p);
    hide Evaluate, ReadAs, Meaning, Verdict, Missing, Lacking, Balanced, Places, Chain, Deepest;
  }

  // ---- two guards ----

  /** Whether two joined guards leave balanced parentheses. */
  predicate Matched(e: Expr, f: Expr) {
    var first, second := Print(e, 0), Print(f, 0);
    if TakesOpens(first) == TakesCloses(first) then TakesOpens(second) == TakesCloses(second)
    else TakesCloses(first) && TakesOpens(second) && !TakesCloses(second)
  }

  lemma TwoAreBalanced(e: Expr, f: Expr)
    ensures Balanced(Places([e, f]), 0) <==> Matched(e, f)
  {
    var items := Places([e, f]);
    hide TakesOpens, TakesCloses, Print;
    assert [e, f][1..] == [f];
    assert items == [Placed(e, 1, 1), Placed(f, 1, 1)];
    TwoItems(items[0], items[1]);
  }

  lemma TwoItems(a: Item, b: Item)
    ensures Balanced([a, b], 0) <==> a.closes <= a.opens && b.closes == a.opens - a.closes + b.opens
  {
    var items := [a, b];
    assert items[1..] == [b] && [b][1..] == [];
    assert forall depth: nat :: Balanced([], depth) <==> depth == 0;
    assert forall depth: nat :: Balanced([b], depth) <==> b.closes == depth + b.opens;
  }

  lemma MeaningOfTwo(e: Expr, f: Expr, ctx: Context, p: Platform)
    ensures Meaning([e, f], ctx, p) == Both(Verdict(e, ctx, p), Verdict(f, ctx, p))
    ensures Missing([e, f], ctx) == Lacking(e, ctx) + Lacking(f, ctx)
  {
    hide Verdict, Lacking;
    assert [e, f][1..] == [f] && [f][1..] == [];
    assert Missing([f], ctx) == Lacking(f, ctx) + Missing([], ctx);
  }

  /** Two guards joined once are read exactly when matched, within the depth, and mean both unless one is loose. */
  lemma AJoinedGuardMeansBoth(caller: Tokens, called: Tokens, e: Expr, f: Expr, ctx: Context, p: Platform)
    requires Condensed(caller) == Print(e, 0) && Condensed(called) == Print(f, 0)
    ensures
      var read := Evaluate(Combined(caller, called), ctx, p);
      var verdict := Both(Verdict(e, ctx, p), Verdict(f, ctx, p));
      && (Balanced(Places([e, f]), 0) <==> Matched(e, f))
      && (read.Ok? <==> Balanced(Places([e, f]), 0) && Deepest(Places([e, f]), 0) <= MAX_DEPTH)
      && (read.Ok? && !Loose(e) && !Loose(f) ==>
            read == Ok(Condition(verdict, if verdict.Some? then {} else Lacking(e, ctx) + Lacking(f, ctx))))
  {
    var guards, es := [caller, called], [e, f];
    assert guards[1..] == [called] && es[1..] == [f] && es[1..][1..] == [];
    assert Chain(guards) == Combined(caller, called);
    TwoAreBalanced(e, f);
    AChainIsReadExactlyWhen(guards, es, ctx, p);
    MeaningOfTwo(e, f, ctx, p);
    assert AreTextsOf(guards, es) && (!Loose(e) && !Loose(f) ==> NoneLoose(es));
    hide *;
    if Evaluate(Combined(caller, called), ctx, p).Ok? && !Loose(e) && !Loose(f) {
      AChainMeansAllItsGuards(guards, es, ctx, p);
    }
  }

  /**
   * A caller's guard that joins with `||` and both begins and ends with an operand in parentheses
   * keeps only its last alternative for the called job: the others decide on their own.
   */
  lemma ALooseCallerRunsIntoTheCalled(caller: Tokens, called: Tokens, e: Expr, f: Expr, ctx: Context, p: Platform)
    requires Condensed(caller) == Print(e, 0) && Condensed(called) == Print(f, 0)
    requires e.Or? && TakesOpens(Print(e, 0)) && TakesCloses(Print(e, 0)) && !Loose(f)
    requires Evaluate(Combined(caller, called), ctx, p).Ok?
    ensures Evaluate(Combined(caller, called), ctx, p).value.value
         == AnyOf(Verdict(e.left, ctx, p), Both(Verdict(e.right, ctx, p), Verdict(f, ctx, p)))
  {
    var guards, es := [caller, called], [e, f];
    assert guards[1..] == [called] && es[1..] == [f];
    assert Chain(guards) == Combined(caller, called);
    AChainIsReadExactlyWhen(guards, es, ctx, p);
    TwoAreBalanced(e, f);
    assert Places(es) == [Item(0, Raised(e, 1), 0), Placed(f, 1, 1)];
    hide Evaluate, Chain, Places, Condensed, Print;
    BuiltFromTwo(Raised(e, 1), Placed(f, 1, 1), ctx, p);
    RaisedMeansTheSame(e.left, 1, ctx, p);
    RaisedMeansTheSame(f, 1, ctx, p);
  }

  lemma BuiltFromTwo(e: Expr, item: Item, ctx: Context, p: Platform)
    requires e.Or? && Balanced([Item(0, e, 0), item], 0)
    requires item.opens == item.closes <= 1 && (item.tree.Or? ==> item.opens == 1)
    ensures Verdict(Built([Item(0, e, 0), item], [], BLANK), ctx, p)
         == AnyOf(Verdict(e.left, ctx, p), Both(Verdict(e.right, ctx, p), Verdict(item.tree, ctx, p)))
  {
    var frame := Frame(Some(Whole(Spliced(BLANK, e.left))), Some(e.right));
    BuiltInTwo(e, item);
    SplicedMeans(BLANK, e.left, ctx, p);
    BothAssociates(Verdict(e.left, ctx, p), None, None);
    hide *;
    ASecondTaken(frame, item);
    ASecondMeans(frame, item, ctx, p);
  }

  lemma BuiltInTwo(e: Expr, item: Item)
    requires e.Or? && Balanced([Item(0, e, 0), item], 0) && item.opens == item.closes
    ensures
      var frame := Frame(Some(Whole(Spliced(BLANK, e.left))), Some(e.right));
      Built([Item(0, e, 0), item], [], BLANK) == Whole(Taken([], frame, item).1)
  {
    var items := [Item(0, e, 0), item];
    assert items[1..] == [item];
    assert Taken([], BLANK, items[0]).1 == Part(Some(Whole(Spliced(BLANK, e.left))), e.right);
    hide Taken, Whole, Spliced;
  }

  lemma ASecondMeans(frame: Frame, item: Item, ctx: Context, p: Platform)
    requires frame.ors.Some? && item.opens <= 1 && (item.tree.Or? ==> item.opens == 1)
    ensures
      var part := if item.opens == 0 then Part(frame.ors, Extended(frame.ands, item.tree))
                  else Attached(frame, Spliced(BLANK, item.tree));
      Verdict(Whole(part), ctx, p)
      == AnyOf(Verdict(frame.ors.value, ctx, p), Both(Worth(frame.ands, ctx, p), Verdict(item.tree, ctx, p)))
  {
    var inner := Spliced(BLANK, item.tree);
    SplicedMeans(BLANK, item.tree, ctx, p);
    BothAssociates(Verdict(item.tree, ctx, p), None, None);
    ExtendedMeans(frame.ands, item.tree, ctx, p);
    ExtendedMeans(frame.ands, Paren(Whole(inner)), ctx, p);
    assert Verdict(Paren(Whole(inner)), ctx, p) == Verdict(Whole(inner), ctx, p);
    hide Spliced, Extended;
  }

  lemma ASecondTaken(frame: Frame, item: Item)
    requires item.opens == item.closes <= 1 && (item.tree.Or? ==> item.opens == 1)
    ensures Taken([], frame, item).1
         == if item.opens == 0 then Part(frame.ors, Extended(frame.ands, item.tree))
            else Attached(frame, Spliced(BLANK, item.tree))
  {
    TakenInSteps([], frame, item);
    if item.opens == 1 {
      assert Opened([], frame, 1) == Opened([] + [frame], BLANK, 0);
      var part := Spliced(BLANK, item.tree);
      assert Closed([frame], part, 1) == Closed([frame][..0], Attached([frame][0], part), 0);
    }
  }

  // ---- chains whose guards begin and end with no operand in parentheses ----

  /** A guard that is one operand, or takes no parenthesis on either side. */
  predicate Ordinary(e: Expr) {
    e.Leaf? || (!TakesOpens(Print(e, 0)) && !TakesCloses(Print(e, 0)))
  }

  predicate AllLeaves(es: seq<Expr>) {
    forall i | 0 <= i < |es| :: es[i].Leaf?
  }

  predicate NoLeaves(es: seq<Expr>) {
    forall i | 0 <= i < |es| :: !es[i].Leaf?
  }

  lemma {:induction false} OrdinaryInnerIsBalanced(es: seq<Expr>, extra: nat, depth: nat)
    requires es != [] && depth <= extra && forall i | 0 <= i < |es| :: Ordinary(es[i])
    ensures Balanced(Inner(es, extra), depth) <==> (AllLeaves(es) && depth == 0) || (NoLeaves(es) && depth == extra)
    decreases |es|
  {
    var items := Inner(es, extra);
    OrdinaryPlaces(es[0], if |es| == 1 then 1 else 2, if |es| == 1 then 1 + extra else 1);
    hide Placed, Ordinary;
    if |es| == 1 {
      assert items[1..] == [];
    } else {
      assert items[1..] == Inner(es[1..], extra + 1);
      assert AllLeaves(es) <==> es[0].Leaf? && AllLeaves(es[1..]);
      assert NoLeaves(es) <==> !es[0].Leaf? && NoLeaves(es[1..]);
      OrdinaryInnerIsBalanced(es[1..], extra + 1, if es[0].Leaf? then depth else depth + 1);
    }
  }

  lemma OrdinaryPlaces(e: Expr, opens: nat, closes: nat)
    requires Ordinary(e)
    ensures
      var item := Placed(e, opens, closes);
      item.opens == (if e.Leaf? then 0 else opens) && item.closes == if e.Leaf? then 0 else closes
  {
    assert e.Leaf? ==> Print(e, 0) == [Held(e.atom, e.wraps)];
  }

  lemma OrdinaryChainsBalanceExactlyWhen(es: seq<Expr>)
    requires |es| >= 2 && forall i | 0 <= i < |es| :: Ordinary(es[i])
    ensures Balanced(Places(es), 0) <==> AllLeaves(es[1..]) || NoLeaves(es[1..])
  {
    OrdinaryPlaces(es[0], 1, 1);
    assert Places(es)[1..] == Inner(es[1..], 0);
    OrdinaryInnerIsBalanced(es[1..], 0, 0);
    hide Placed, Inner, Ordinary, AllLeaves, NoLeaves;
  }

  lemma OrdinaryGuardsAreNotLoose(es: seq<Expr>)
    requires forall i | 0 <= i < |es| :: Ordinary(es[i])
    ensures NoneLoose(es)
  {
    forall i | 0 <= i < |es| ensures !Loose(es[i]) {
      assert Ordinary(es[i]);
    }
  }

  /**
   * Ordinary guards joined by nested calls are read if and only if those below the outermost are all
   * operands or none is, and the descent has room; then they are decided as all of them are.
   */
  lemma OrdinaryChainsAreReadExactlyWhen(guards: seq<Tokens>, es: seq<Expr>, ctx: Context, p: Platform)
    requires |guards| >= 2 && AreTextsOf(guards, es) && forall i | 0 <= i < |es| :: Ordinary(es[i])
    ensures
      var read, verdict := Evaluate(Chain(guards), ctx, p), Meaning(es, ctx, p);
      && (Balanced(Places(es), 0) <==> AllLeaves(es[1..]) || NoLeaves(es[1..]))
      && (read.Ok? <==> Balanced(Places(es), 0) && Deepest(Places(es), 0) <= MAX_DEPTH)
      && (read.Ok? ==> read == Ok(Condition(verdict, if verdict.Some? then {} else Missing(es, ctx))))
  {
    AChainIsReadExactlyWhen(guards, es, ctx, p);
    OrdinaryChainsBalanceExactlyWhen(es);
    OrdinaryGuardsAreNotLoose(es);
    hide *;
    if Evaluate(Chain(guards), ctx, p).Ok? { AChainMeansAllItsGuards(guards, es, ctx, p); }
  }
}
