/** Why no chain with a loose guard can be relied on: guards of the same shapes are read as something else. */
module LooseGuards {
  import opened Prelude
  import opened Conditions
  import opened ConditionWords
  import opened ConditionPrinting
  import opened ConditionGuards
  import opened ConditionChains
  import opened ConditionMeaning

  /** Whether two guards take the same parentheses and are alike an operand, or joined with `||`. */
  predicate SameShape(e: Expr, f: Expr) {
    && TakesOpens(Print(e, 0)) == TakesOpens(Print(f, 0)) && TakesCloses(Print(e, 0)) == TakesCloses(Print(f, 0))
    && e.Leaf? == f.Leaf? && e.Or? == f.Or?
  }

  predicate SameShapes(es: seq<Expr>, fs: seq<Expr>) {
    |es| == |fs| && forall i | 0 <= i < |es| :: SameShape(es[i], fs[i])
  }

  // ---- alternatives already decided in a group decide it ----

  predicate Holds(ors: Option<Expr>, ctx: Context, p: Platform) {
    ors.Some? && Verdict(ors.value, ctx, p) == Some(true)
  }

  predicate SoundBelow(stack: seq<Frame>, m: nat, ctx: Context, p: Platform)
    requires m <= |stack|
  {
    forall j | 0 <= j < m :: Worth(stack[j].ands, ctx, p) == Some(true)
  }

  /** One open group has an alternative that holds, and all groups around it only terms that do. */
  ghost predicate Decided(stack: seq<Frame>, ors: Option<Expr>, m: nat, ctx: Context, p: Platform) {
    m <= |stack| && SoundBelow(stack, m, ctx, p) && Holds(if m < |stack| then stack[m].ors else ors, ctx, p)
  }

  /** All open groups have only terms that hold. */
  ghost predicate Sound(stack: seq<Frame>, ands: Option<Expr>, ctx: Context, p: Platform) {
    SoundBelow(stack, |stack|, ctx, p) && Worth(ands, ctx, p) == Some(true)
  }

  ghost predicate Certain(stack: seq<Frame>, ors: Option<Expr>, ands: Option<Expr>, ctx: Context, p: Platform) {
    Sound(stack, ands, ctx, p) || exists m: nat :: Decided(stack, ors, m, ctx, p)
  }

  ghost predicate CertainPart(stack: seq<Frame>, part: Part, ctx: Context, p: Platform) {
    Certain(stack, part.ors, Some(part.term), ctx, p)
  }

  /** A tree whose last alternative holds. */
  predicate EndsTrue(e: Expr, ctx: Context, p: Platform) {
    Verdict(if e.Or? then e.right else e, ctx, p) == Some(true)
  }

  lemma ACertainGroupHolds(part: Part, ctx: Context, p: Platform)
    requires CertainPart([], part, ctx, p)
    ensures Verdict(Whole(part), ctx, p) == Some(true)
  {
  }

  lemma {:induction false} SplicedKeepsAlternatives(frame: Frame, e: Expr, ctx: Context, p: Platform)
    ensures Holds(frame.ors, ctx, p) ==> Holds(Spliced(frame, e).ors, ctx, p)
    ensures Holds(frame.ors, ctx, p) ==> Verdict(Whole(Spliced(frame, e)), ctx, p) == Some(true)
    decreases e
  {
    if e.Or? { SplicedKeepsAlternatives(frame, e.left, ctx, p); }
  }

  /** A tree whose last alternative holds leaves a term that does, where it starts one or those before it do. */
  lemma SplicedEndsTrue(frame: Frame, e: Expr, ctx: Context, p: Platform)
    requires EndsTrue(e, ctx, p) && (e.Or? || Worth(frame.ands, ctx, p) == Some(true))
    ensures Verdict(Spliced(frame, e).term, ctx, p) == Some(true)
  {
    if !e.Or? { ExtendedMeans(frame.ands, e, ctx, p); }
    hide Extended;
  }

  lemma {:induction false} OpenedIsSound(stack: seq<Frame>, frame: Frame, n: nat, ctx: Context, p: Platform)
    requires SoundBelow(stack, |stack|, ctx, p) && (n > 0 ==> Worth(frame.ands, ctx, p) == Some(true))
    ensures
      var (after, inner) := Opened(stack, frame, n);
      SoundBelow(after, |after|, ctx, p) && (inner == if n == 0 then frame else BLANK)
    decreases n
  {
    if n > 0 { OpenedIsSound(stack + [frame], BLANK, n - 1, ctx, p); }
  }

  lemma {:induction false} OpenedIsDecided(stack: seq<Frame>, frame: Frame, n: nat, m: nat, ctx: Context, p: Platform)
    requires Decided(stack, frame.ors, m, ctx, p)
    ensures
      var (after, inner) := Opened(stack, frame, n);
      Decided(after, inner.ors, m, ctx, p)
    decreases n
  {
    if n > 0 { OpenedIsDecided(stack + [frame], BLANK, n - 1, m, ctx, p); }
  }

  lemma AttachedIsTrue(frame: Frame, part: Part, ctx: Context, p: Platform)
    requires Worth(frame.ands, ctx, p) == Some(true) && Verdict(Whole(part), ctx, p) == Some(true)
    ensures Verdict(Attached(frame, part).term, ctx, p) == Some(true)
  {
    ExtendedMeans(frame.ands, Paren(Whole(part)), ctx, p);
    assert Verdict(Paren(Whole(part)), ctx, p) == Some(true);
    hide Extended, Whole;
  }

  lemma {:induction false} ClosedIsCertain(stack: seq<Frame>, part: Part, n: nat, ctx: Context, p: Platform)
    requires n <= |stack| && CertainPart(stack, part, ctx, p)
    ensures
      var (after, outer) := Closed(stack, part, n);
      CertainPart(after, outer, ctx, p)
    decreases n
  {
    if n > 0 {
      OneClosedIsCertain(stack, part, ctx, p);
      ClosedIsCertain(stack[..|stack| - 1], Attached(stack[|stack| - 1], part), n - 1, ctx, p);
      hide CertainPart, Attached;
    }
  }

  lemma OneClosedIsCertain(stack: seq<Frame>, part: Part, ctx: Context, p: Platform)
    requires stack != [] && CertainPart(stack, part, ctx, p)
    ensures CertainPart(stack[..|stack| - 1], Attached(stack[|stack| - 1], part), ctx, p)
  {
    var fewer, frame := stack[..|stack| - 1], stack[|stack| - 1];
    if m: nat :| Decided(stack, part.ors, m, ctx, p) && m < |stack| {
      assert Decided(fewer, Attached(frame, part).ors, m, ctx, p);
    } else {
      AttachedIsTrue(frame, part, ctx, p);
      assert Sound(fewer, Some(Attached(frame, part).term), ctx, p);
    }
  }

  lemma {:induction false} ClosedIsSound(stack: seq<Frame>, part: Part, n: nat, ctx: Context, p: Platform)
    requires n <= |stack| && Sound(stack, Some(part.term), ctx, p)
    ensures
      var (after, outer) := Closed(stack, part, n);
      Sound(after, Some(outer.term), ctx, p)
    decreases n
  {
    if n > 0 {
      var frame := stack[|stack| - 1];
      AttachedIsTrue(frame, part, ctx, p);
      ClosedIsSound(stack[..|stack| - 1], Attached(frame, part), n - 1, ctx, p);
    }
  }

  lemma {:induction false} ClosedDrops(stack: seq<Frame>, part: Part, n: nat)
    requires n <= |stack|
    ensures Closed(stack, part, n).0 == stack[..|stack| - n]
    ensures n == 0 ==> Closed(stack, part, n).1 == part
    decreases n
  {
    if n > 0 { ClosedDrops(stack[..|stack| - 1], Attached(stack[|stack| - 1], part), n - 1); }
  }

  // ---- one place at a time ----

  lemma TakenIsSound(stack: seq<Frame>, frame: Frame, item: Item, ctx: Context, p: Platform)
    requires item.closes <= |stack| + item.opens && EndsTrue(item.tree, ctx, p)
    requires Sound(stack, frame.ands, ctx, p)
    ensures
      var (after, part) := Taken(stack, frame, item);
      Sound(after, Some(part.term), ctx, p)
  {
    var (opened1, inner) := Opened(stack, frame, item.opens);
    TakenInSteps(stack, frame, item);
    OpenedIsSound(stack, frame, item.opens, ctx, p);
    SplicedEndsTrue(inner, item.tree, ctx, p);
    ClosedIsSound(opened1, Spliced(inner, item.tree), item.closes, ctx, p);
    hide Taken, Closed, Spliced, Opened;
  }

  lemma TakenIsDecided(stack: seq<Frame>, frame: Frame, item: Item, m: nat, ctx: Context, p: Platform)
    requires item.closes <= |stack| + item.opens && Decided(stack, frame.ors, m, ctx, p)
    ensures
      var (after, part) := Taken(stack, frame, item);
      CertainPart(after, part, ctx, p)
  {
    var (opened1, inner) := Opened(stack, frame, item.opens);
    var spliced := Spliced(inner, item.tree);
    TakenInSteps(stack, frame, item);
    OpenedIsDecided(stack, frame, item.opens, m, ctx, p);
    SplicedKeepsAlternatives(inner, item.tree, ctx, p);
    assert Decided(opened1, spliced.ors, m, ctx, p);
    ClosedIsCertain(opened1, spliced, item.closes, ctx, p);
    hide Taken, Closed, Spliced, Opened;
  }

  lemma TakenIsCertain(stack: seq<Frame>, frame: Frame, item: Item, ctx: Context, p: Platform)
    requires item.closes <= |stack| + item.opens && EndsTrue(item.tree, ctx, p)
    requires Certain(stack, frame.ors, frame.ands, ctx, p)
    ensures
      var (after, part) := Taken(stack, frame, item);
      CertainPart(after, part, ctx, p)
  {
    hide Taken, Sound, Decided;
    if m: nat :| Decided(stack, frame.ors, m, ctx, p) {
      TakenIsDecided(stack, frame, item, m, ctx, p);
    } else {
      TakenIsSound(stack, frame, item, ctx, p);
    }
  }

  /** Alternatives that hold, and are not closed off from what comes behind them, decide their group. */
  lemma AlternativesDecide(stack: seq<Frame>, frame: Frame, item: Item, ctx: Context, p: Platform)
    requires Sound(stack, frame.ands, ctx, p)
    requires item.closes == 0 && item.tree.Or? && EndsTrue(item.tree.left, ctx, p)
    ensures
      var (after, part) := Taken(stack, frame, item);
      Decided(after, part.ors, |after|, ctx, p)
  {
    var (opened1, inner) := Opened(stack, frame, item.opens);
    var left := Spliced(inner, item.tree.left);
    TakenInSteps(stack, frame, item);
    OpenedIsSound(stack, frame, item.opens, ctx, p);
    SplicedEndsTrue(inner, item.tree.left, ctx, p);
    ClosedDrops(opened1, Spliced(inner, item.tree), 0);
    assert Verdict(Whole(left), ctx, p) == Some(true);
    assert Spliced(inner, item.tree).ors == Some(Whole(left));
    hide Taken, Closed, Spliced, Opened, Whole;
  }

  /** What stands before them in their group does not matter to alternatives that hold. */
  lemma AlternativesRecover(stack: seq<Frame>, frame: Frame, item: Item, ctx: Context, p: Platform)
    requires SoundBelow(stack, |stack|, ctx, p) && item.closes <= |stack|
    requires item.opens == 0 && item.tree.Or? && EndsTrue(item.tree, ctx, p)
    ensures
      var (after, part) := Taken(stack, frame, item);
      Sound(after, Some(part.term), ctx, p)
  {
    TakenInSteps(stack, frame, item);
    SplicedEndsTrue(frame, item.tree, ctx, p);
    ClosedIsSound(stack, Spliced(frame, item.tree), item.closes, ctx, p);
    hide Taken, Closed, Spliced;
  }

  lemma TakenIsSoundBelow(stack: seq<Frame>, frame: Frame, item: Item, ctx: Context, p: Platform)
    requires item.closes <= |stack| + item.opens && Sound(stack, frame.ands, ctx, p)
    ensures
      var after := Taken(stack, frame, item).0;
      SoundBelow(after, |after|, ctx, p)
  {
    var (opened1, inner) := Opened(stack, frame, item.opens);
    TakenInSteps(stack, frame, item);
    OpenedIsSound(stack, frame, item.opens, ctx, p);
    ClosedDrops(opened1, Spliced(inner, item.tree), item.closes);
    hide Taken, Closed, Spliced, Opened;
  }

  // ---- a whole chain ----

  /** The tree built from the rest of a chain, behind a term. */
  function Rest(items: seq<Item>, stack: seq<Frame>, part: Part): Expr
    requires Balanced(items, |stack|)
  {
    if items == [] then Whole(part) else Built(items, stack, Frame(part.ors, Some(part.term)))
  }

  lemma BuiltIsTheRest(items: seq<Item>, stack: seq<Frame>, frame: Frame)
    requires items != [] && Balanced(items, |stack|)
    ensures
      var (after, part) := Taken(stack, frame, items[0]);
      Balanced(items[1..], |after|) && Built(items, stack, frame) == Rest(items[1..], after, part)
  {
  }

  ghost predicate AllEndTrue(items: seq<Item>, ctx: Context, p: Platform) {
    forall i | 0 <= i < |items| :: EndsTrue(items[i].tree, ctx, p)
  }

  lemma {:induction false} CertaintyStays(items: seq<Item>, stack: seq<Frame>, part: Part, ctx: Context, p: Platform)
    requires Balanced(items, |stack|) && AllEndTrue(items, ctx, p) && CertainPart(stack, part, ctx, p)
    ensures Verdict(Rest(items, stack, part), ctx, p) == Some(true)
    decreases |items|
  {
    hide Verdict, Taken, Built, Whole, EndsTrue;
    if items == [] {
      ACertainGroupHolds(part, ctx, p);
    } else {
      var frame := Frame(part.ors, Some(part.term));
      var (after, next) := Taken(stack, frame, items[0]);
      BuiltIsTheRest(items, stack, frame);
      TakenIsCertain(stack, frame, items[0], ctx, p);
      CertaintyStays(items[1..], after, next, ctx, p);
    }
  }

  /** Whether the guard at `k` stands beside alternatives that hold, with no parenthesis between them. */
  ghost predicate BesideAlternatives(items: seq<Item>, k: nat, ctx: Context, p: Platform) {
    || (0 < k < |items| && items[k - 1].closes == 0 && items[k - 1].tree.Or?
        && EndsTrue(items[k - 1].tree.left, ctx, p))
    || (k + 1 < |items| && items[k + 1].opens == 0 && items[k + 1].tree.Or?)
  }

  /** Where every guard but one holds, and that one stands beside a loose one, the chain is read to hold. */
  lemma {:induction false} ALooseGuardHidesItsNeighbour(items: seq<Item>, stack: seq<Frame>, frame: Frame, k: nat,
                                                        ctx: Context, p: Platform)
    requires Balanced(items, |stack|) && Sound(stack, frame.ands, ctx, p) && k < |items|
    requires forall i | 0 <= i < |items| && i != k :: EndsTrue(items[i].tree, ctx, p)
    requires BesideAlternatives(items, k, ctx, p)
    ensures Verdict(Built(items, stack, frame), ctx, p) == Some(true)
    decreases |items|
  {
    var (after, part) := Taken(stack, frame, items[0]);
    var next := Frame(part.ors, Some(part.term));
    BuiltIsTheRest(items, stack, frame);
    hide Verdict, Taken, Built, Whole, EndsTrue, Sound, Decided;
    if k == 1 && items[0].closes == 0 && items[0].tree.Or? && EndsTrue(items[0].tree.left, ctx, p) {
      AlternativesDecide(stack, frame, items[0], ctx, p);
      TakenIsDecided(after, next, items[1], |after|, ctx, p);
      TheRestIsCertain(items[1..], after, next, ctx, p);
    } else if k == 0 {
      TakenIsSoundBelow(stack, frame, items[0], ctx, p);
      AlternativesRecover(after, next, items[1], ctx, p);
      TheRestIsCertain(items[1..], after, next, ctx, p);
    } else {
      TakenIsSound(stack, frame, items[0], ctx, p);
      ALooseGuardHidesItsNeighbour(items[1..], after, next, k - 1, ctx, p);
    }
  }

  lemma TheRestIsCertain(items: seq<Item>, stack: seq<Frame>, frame: Frame, ctx: Context, p: Platform)
    requires items != [] && Balanced(items, |stack|) && AllEndTrue(items[1..], ctx, p)
    requires
      var (after, part) := Taken(stack, frame, items[0]);
      Sound(after, Some(part.term), ctx, p) || CertainPart(after, part, ctx, p)
    ensures Verdict(Built(items, stack, frame), ctx, p) == Some(true)
  {
    var (after, part) := Taken(stack, frame, items[0]);
    BuiltIsTheRest(items, stack, frame);
    hide Verdict, Taken, Built, Whole, EndsTrue, Sound, Decided;
    CertaintyStays(items[1..], after, part, ctx, p);
  }

  // ---- guards of given shapes ----

  /** An operand joined with itself, each time in that many parentheses. */
  function Pair(either: bool, atom: Atom, left: nat, right: nat): Expr {
    if either then Or(Leaf(atom, left), Leaf(atom, right)) else And(Leaf(atom, left), Leaf(atom, right))
  }

  lemma PairsAreShort(either: bool, atom: Atom, left: nat, right: nat, ctx: Context, p: Platform)
    ensures
      var e, value := Pair(either, atom, left, right), Truth(AtomValue(atom, ctx));
      && Print(e, 0) == [Held(atom, left), Sign(if either then OrOp else AndOp), Held(atom, right)]
      && Nest(e, 0) == Max(left, right)
      && (value.Some? ==> Verdict(e, ctx, p) == value)
      && (value == Some(true) ==> EndsTrue(e, ctx, p) && (either ==> EndsTrue(e.left, ctx, p)))
  {
    var e, l, r := Pair(either, atom, left, right), Leaf(atom, left), Leaf(atom, right);
    assert Print(l, 0) == Print(l, 1) == [Held(atom, left)];
    assert Print(r, 1) == Print(r, 2) == [Held(atom, right)];
    assert Nest(l, 0) == Nest(l, 1) == left && Nest(r, 1) == Nest(r, 2) == right;
    assert Verdict(l, ctx, p) == Verdict(r, ctx, p) == Truth(AtomValue(atom, ctx));
    assert Print(e, 0) == Bare(e) && Nest(e, 0) == BareNest(e);
  }

  /** An operand, or a pair, of the guard's own shape and of one value. */
  function StandIn(e: Expr, value: bool): Expr {
    var atom, words := Num(if value then 1.0 else 0.0), Print(e, 0);
    if e.Leaf? then Leaf(atom, 0)
    else Pair(e.Or?, atom, if TakesOpens(words) then 1 else 0, if TakesCloses(words) then 1 else 0)
  }

  lemma AStandInFits(e: Expr, value: bool, ctx: Context, p: Platform)
    ensures SameShape(e, StandIn(e, value)) && Clear(Print(StandIn(e, value), 0))
    ensures Verdict(StandIn(e, value), ctx, p) == Some(value)
  {
    Edges(e, 0);
    var words, atom := Print(e, 0), Num(if value then 1.0 else 0.0);
    PairsAreShort(e.Or?, atom, if TakesOpens(words) then 1 else 0, if TakesCloses(words) then 1 else 0, ctx, p);
    if e.Leaf? {
      assert words == [Held(e.atom, e.wraps)] && Print(StandIn(e, value), 0) == [Held(atom, 0)];
    } else {
      hide Print, Verdict;
    }
  }

  lemma {:induction false} FirstNests(e: Expr, level: nat)
    requires level <= 4
    ensures var words := Print(e, level); words != [] && (words[0].Held? ==> words[0].wraps <= Nest(e, level))
    decreases e
  {
    Edges(e, level);
    match e
    case Leaf(_, _) =>
    case Not(_) =>
    case Paren(_) =>
    case Cmp(_, left, _) => FirstNests(left, 4);
    case And(left, _) => FirstNests(left, 1);
    case Or(left, _) => FirstNests(left, 0);
  }

  lemma {:induction false} LastNests(e: Expr, level: nat)
    requires level <= 4
    ensures
      var words := Print(e, level);
      var n := |words|;
      n > 0 && (words[n - 1].Held? ==> words[n - 1].wraps <= Nest(e, level))
    decreases e
  {
    Edges(e, level);
    match e
    case Leaf(_, _) =>
    case Paren(_) =>
    case Not(inner) => LastNests(inner, 2);
    case Cmp(_, _, right) => LastNests(right, 4);
    case And(_, right) => LastNests(right, 2);
    case Or(_, right) => LastNests(right, 1);
  }

  /** A stand-in leaves the same parentheses, nests no deeper, and is all of its value. */
  lemma AStandInInItsPlace(e: Expr, value: bool, opens: nat, closes: nat, ctx: Context, p: Platform)
    requires opens > 0
    ensures
      var item, own := Placed(StandIn(e, value), opens, closes), Placed(e, opens, closes);
      && item.opens == own.opens && item.closes == own.closes && item.tree.Or? == e.Or?
      && Nest(item.tree, 0) <= Nest(own.tree, 0)
      && (value ==> EndsTrue(item.tree, ctx, p) && (e.Or? ==> EndsTrue(item.tree.left, ctx, p)))
  {
    var words, f := Print(e, 0), StandIn(e, value);
    var tree := Placed(e, opens, closes).tree;
    AStandInFits(e, value, ctx, p);
    Edges(e, 0);
    FirstNests(tree, 0);
    LastNests(tree, 0);
    if TakesOpens(words) { RaisedPrints(e, opens, 0); }
    AStandInNests(e, value, opens, ctx, p);
    hide Print, Nest, BareNest;
  }

  lemma AStandInNests(e: Expr, value: bool, opens: nat, ctx: Context, p: Platform)
    ensures Nest(StandIn(e, value), 0)
         == if !e.Leaf? && (TakesOpens(Print(e, 0)) || TakesCloses(Print(e, 0))) then 1 else 0
    ensures Nest(Raised(StandIn(e, value), opens), 0)
         == if e.Leaf? then opens
            else Max((if TakesOpens(Print(e, 0)) then 1 else 0) + opens, if TakesCloses(Print(e, 0)) then 1 else 0)
    ensures value ==> EndsTrue(StandIn(e, value), ctx, p) && EndsTrue(Raised(StandIn(e, value), opens), ctx, p)
    ensures value && e.Or? ==>
              EndsTrue(StandIn(e, value).left, ctx, p) && EndsTrue(Raised(StandIn(e, value), opens).left, ctx, p)
  {
    var words, atom := Print(e, 0), Num(if value then 1.0 else 0.0);
    if !e.Leaf? {
      var left, right := if TakesOpens(words) then 1 else 0, if TakesCloses(words) then 1 else 0;
      PairsAreShort(e.Or?, atom, left, right, ctx, p);
      PairsAreShort(e.Or?, atom, left + opens, right, ctx, p);
      assert Raised(StandIn(e, value), opens) == Pair(e.Or?, atom, left + opens, right);
      hide Print, Nest, Verdict;
    }
  }

  // ---- a chain of stand-ins ----

  function OpensAt(n: nat, i: nat): nat {
    if i == 0 || i == n - 1 then 1 else 2
  }

  function ClosesAt(n: nat, i: nat): nat
    requires i < n
  {
    if i < n - 1 then 1 else n - 1
  }

  lemma {:induction false} InnerAt(es: seq<Expr>, extra: nat, i: nat)
    requires i < |es|
    ensures Inner(es, extra)[i]
         == Placed(es[i], if i == |es| - 1 then 1 else 2, if i == |es| - 1 then |es| + extra else 1)
    decreases |es|
  {
    hide Placed;
    if i > 0 { InnerAt(es[1..], extra + 1, i - 1); }
  }

  lemma PlacesAt(es: seq<Expr>, i: nat)
    requires |es| >= 2 && i < |es|
    ensures Places(es)[i] == Placed(es[i], OpensAt(|es|, i), ClosesAt(|es|, i))
  {
    hide Placed;
    if i > 0 { InnerAt(es[1..], 0, i - 1); }
  }

  /** Places that leave the same parentheses, with trees that nest no deeper in the second. */
  predicate Alike(items: seq<Item>, others: seq<Item>) {
    |items| == |others|
    && forall i | 0 <= i < |items| ::
         && items[i].opens == others[i].opens && items[i].closes == others[i].closes
         && Nest(others[i].tree, 0) <= Nest(items[i].tree, 0)
  }

  lemma {:induction false} AlikeAreBalanced(items: seq<Item>, others: seq<Item>, depth: nat)
    requires Alike(items, others) && Balanced(items, depth)
    ensures Balanced(others, depth) && Deepest(others, depth) <= Deepest(items, depth)
    decreases |items|
  {
    hide Nest;
    if items != [] {
      assert forall i | 0 <= i < |items| - 1 :: items[1..][i] == items[i + 1] && others[1..][i] == others[i + 1];
      AlikeAreBalanced(items[1..], others[1..], depth + items[0].opens - items[0].closes);
    }
  }

  lemma {:induction false} TheLastClosesAll(items: seq<Item>, depth: nat)
    requires items != [] && Balanced(items, depth) && items[|items| - 1].closes == 0
    ensures items[|items| - 1].opens == 0
    decreases |items|
  {
    if |items| > 1 {
      TheLastClosesAll(items[1..], depth + items[0].opens - items[0].closes);
    } else {
      assert items[1..] == [];
    }
  }

  /** Stand-ins for a chain's guards, all of which hold but the one at `k`. */
  function StandIns(es: seq<Expr>, k: nat): (fs: seq<Expr>)
    ensures |fs| == |es| && forall i | 0 <= i < |es| :: fs[i] == StandIn(es[i], i != k)
  {
    seq(|es|, i requires 0 <= i < |es| => StandIn(es[i], i != k))
  }

  function Texts(es: seq<Expr>): (guards: seq<Tokens>)
    ensures |guards| == |es| && forall i | 0 <= i < |es| :: guards[i] == Spelled(Print(es[i], 0))
  {
    seq(|es|, i requires 0 <= i < |es| => Spelled(Print(es[i], 0)))
  }

  lemma StandInsFit(es: seq<Expr>, k: nat, ctx: Context, p: Platform)
    ensures SameShapes(es, StandIns(es, k)) && AreTextsOf(Texts(StandIns(es, k)), StandIns(es, k))
  {
    var fs := StandIns(es, k);
    forall i | 0 <= i < |es|
      ensures SameShape(es[i], fs[i]) && Condensed(Texts(fs)[i]) == Print(fs[i], 0)
    {
      AStandInFits(es[i], i != k, ctx, p);
      WordsReadBackExactlyWhenClear(Print(fs[i], 0));
    }
  }

  lemma {:induction false} OneFalseGuardDecides(es: seq<Expr>, k: nat, ctx: Context, p: Platform)
    requires k < |es| && forall i | 0 <= i < |es| :: Verdict(es[i], ctx, p) == Some(i != k)
    ensures Meaning(es, ctx, p) == Some(false)
    decreases |es|
  {
    hide Verdict;
    if k > 0 {
      OneFalseGuardDecides(es[1..], k - 1, ctx, p);
    } else if |es| > 1 {
      var rest := Meaning(es[1..], ctx, p);
    }
  }

  /** A place beside which an alternative stands with no parenthesis between. */
  lemma ANeighbour(es: seq<Expr>, i: nat) returns (k: nat)
    requires |es| >= 2 && Balanced(Places(es), 0) && i < |es| && Loose(es[i])
    ensures
      var items := Places(es);
      k < |es| && ((k == i + 1 && items[i].closes == 0) || (k + 1 == i && items[i].opens == 0))
  {
    var items := Places(es);
    PlacesAt(es, i);
    hide TakesOpens, TakesCloses, Print, Places;
    if i < |es| - 1 && items[i].closes == 0 {
      k := i + 1;
    } else {
      if i == |es| - 1 && items[i].closes == 0 { TheLastClosesAll(items, 0); }
      assert items[i].opens == 0;
      k := i - 1;
    }
  }

  /** A stand-in's place beside the place it stands in for. */
  ghost predicate StandsIn(item: Item, own: Item, e: Expr, value: bool, ctx: Context, p: Platform) {
    && item.opens == own.opens && item.closes == own.closes && Nest(item.tree, 0) <= Nest(own.tree, 0)
    && item.tree.Or? == e.Or?
    && (value ==> EndsTrue(item.tree, ctx, p) && (e.Or? ==> EndsTrue(item.tree.left, ctx, p)))
  }

  lemma EachStandsIn(es: seq<Expr>, k: nat, j: nat, ctx: Context, p: Platform)
    requires |es| >= 2 && j < |es|
    ensures StandsIn(Places(StandIns(es, k))[j], Places(es)[j], es[j], j != k, ctx, p)
    ensures Verdict(StandIns(es, k)[j], ctx, p) == Some(j != k)
  {
    hide Placed, Places, StandIn, Print, Nest, EndsTrue, Verdict;
    PlacesAt(es, j);
    PlacesAt(StandIns(es, k), j);
    AStandInFits(es[j], j != k, ctx, p);
    AStandInInItsPlace(es[j], j != k, OpensAt(|es|, j), ClosesAt(|es|, j), ctx, p);
  }

  lemma ItStandsBeside(es: seq<Expr>, items: seq<Item>, i: nat, k: nat, ctx: Context, p: Platform)
    requires |es| >= 2 && |items| == |es| && i < |es| && k < |es| && Loose(es[i])
    requires (k == i + 1 && Places(es)[i].closes == 0) || (k + 1 == i && Places(es)[i].opens == 0)
    requires StandsIn(items[i], Places(es)[i], es[i], true, ctx, p)
    ensures BesideAlternatives(items, k, ctx, p)
  {
    hide Places, EndsTrue, Nest, TakesOpens, TakesCloses;
  }

  lemma TheyAreAlike(items: seq<Item>, es: seq<Expr>, k: nat, ctx: Context, p: Platform)
    requires |es| >= 2 && |items| == |es|
    requires forall j | 0 <= j < |es| :: StandsIn(items[j], Places(es)[j], es[j], j != k, ctx, p)
    ensures Alike(Places(es), items)
    ensures forall j | 0 <= j < |es| && j != k :: EndsTrue(items[j].tree, ctx, p)
  {
    hide Places, EndsTrue, Nest;
    assert forall j | 0 <= j < |es| :: StandsIn(items[j], Places(es)[j], es[j], j != k, ctx, p);
  }

  /** A chain of stand-ins beside a loose guard is read to hold, although one of them does not. */
  lemma StandInsAreMisread(es: seq<Expr>, i: nat, ctx: Context, p: Platform) returns (k: nat)
    requires |es| >= 2 && Balanced(Places(es), 0) && Deepest(Places(es), 0) <= MAX_DEPTH
    requires i < |es| && Loose(es[i])
    ensures
      var fs := StandIns(es, k);
      && Evaluate(Chain(Texts(fs)), ctx, p) == Ok(Condition(Some(true), {}))
      && Meaning(fs, ctx, p) == Some(false)
  {
    k := ANeighbour(es, i);
    var fs := StandIns(es, k);
    var items := Places(fs);
    forall j | 0 <= j < |es|
      ensures StandsIn(items[j], Places(es)[j], es[j], j != k, ctx, p) && Verdict(fs[j], ctx, p) == Some(j != k)
    {
      EachStandsIn(es, k, j, ctx, p);
    }
    hide Verdict, Nest, Places, EndsTrue, BesideAlternatives, StandsIn, Alike, StandIn, Loose, Balanced, Deepest;
    ItStandsBeside(es, items, i, k, ctx, p);
    TheyAreAlike(items, es, k, ctx, p);
    AlikeAreBalanced(Places(es), items, 0);
    NothingIsOpen(ctx, p);
    ALooseGuardHidesItsNeighbour(items, [], BLANK, k, ctx, p);
    OneFalseGuardDecides(fs, k, ctx, p);
    StandInsFit(es, k, ctx, p);
    hide *;
    AChainIsReadExactlyWhen(Texts(fs), fs, ctx, p);
    assert ReadAs(fs) == Built(items, [], BLANK) by { WhatItIsReadAs(fs); }
    WhatHoldsAnswersSo(ReadAs(fs), ctx, p);
  }

  lemma WhatItIsReadAs(es: seq<Expr>)
    requires |es| >= 2
    ensures Balanced(Places(es), 0) ==> ReadAs(es) == Built(Places(es), [], BLANK)
  {
  }

  lemma WhatHoldsAnswersSo(e: Expr, ctx: Context, p: Platform)
    ensures Verdict(e, ctx, p) == Some(true) && Answer(e, ctx, p).Ok? ==>
              Answer(e, ctx, p) == Ok(Condition(Some(true), {}))
  {
  }

  lemma NothingIsOpen(ctx: Context, p: Platform)
    ensures Sound([], None, ctx, p)
  {
  }

  /** Whether a chain of guards, when it is read, is decided as all of them are. */
  ghost predicate MeansAll(guards: seq<Tokens>, es: seq<Expr>, ctx: Context, p: Platform)
    requires |es| >= 2
  {
    AreTextsOf(guards, es) && Evaluate(Chain(guards), ctx, p).Ok? ==>
      Evaluate(Chain(guards), ctx, p).value.value == Meaning(es, ctx, p)
  }

  /**
   * For the shapes of any chain that is read: every chain of guards of those shapes is decided as all
   * of its guards if and only if none of them is loose.
   */
  lemma JoiningKeepsTheMeaningExactlyWhen(es: seq<Expr>, ctx: Context, p: Platform)
    requires |es| >= 2 && Balanced(Places(es), 0) && Deepest(Places(es), 0) <= MAX_DEPTH
    ensures (forall guards, fs | SameShapes(es, fs) :: MeansAll(guards, fs, ctx, p)) <==> NoneLoose(es)
  {
    if NoneLoose(es) {
      forall guards, fs | SameShapes(es, fs) ensures MeansAll(guards, fs, ctx, p) {
        SameShapesAreAsLoose(es, fs);
        if AreTextsOf(guards, fs) && Evaluate(Chain(guards), ctx, p).Ok? {
          AChainMeansAllItsGuards(guards, fs, ctx, p);
        }
      }
    } else {
      var i: nat :| i < |es| && Loose(es[i]);
      var k := StandInsAreMisread(es, i, ctx, p);
      StandInsFit(es, k, ctx, p);
      assert !MeansAll(Texts(StandIns(es, k)), StandIns(es, k), ctx, p);
    }
  }

  lemma SameShapesAreAsLoose(es: seq<Expr>, fs: seq<Expr>)
    requires SameShapes(es, fs) && NoneLoose(es)
    ensures NoneLoose(fs)
  {
    forall i | 0 <= i < |fs| ensures !Loose(fs[i]) {
      assert SameShape(es[i], fs[i]) && !Loose(es[i]);
    }
  }
}
