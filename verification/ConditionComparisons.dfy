/** What the condition reader answers of single operands and of comparisons, operand by operand. */
module ConditionComparisons {
  import opened Prelude
  import opened Conditions
  import opened ConditionWords
  import opened ConditionPrinting

  /** Whether a name spells a word given in small letters, in any case of its ASCII letters. */
  ghost predicate Spells(name: string, word: string) {
    && |name| == |word|
    && forall i | 0 <= i < |name| ::
         name[i] == word[i] || ('A' <= name[i] <= 'Z' && name[i] as int + 32 == word[i] as int)
  }

  ghost predicate SpellsFalse(name: string) {
    Spells(name, "false") || Spells(name, "null") || Spells(name, "none")
  }

  /** What an operand stands for: a text it is or the run carries under it, a flag or a number, or nothing known. */
  ghost predicate StandsFor(atom: Atom, ctx: Context, v: Value) {
    match v
    case Text(text) =>
      atom == Str(text)
      || (atom.Path? && !Spells(atom.name, "true") && !SpellsFalse(atom.name) && atom.name in ctx.Keys
          && ctx[atom.name] == text)
    case Flag(flag) => atom.Path? && if flag then Spells(atom.name, "true") else SpellsFalse(atom.name)
    case Number(value) => atom == Num(value)
    case Unread => atom.Path? && !Spells(atom.name, "true") && !SpellsFalse(atom.name) && atom.name !in ctx.Keys
  }

  ghost predicate SmallLetters(word: string) {
    forall i | 0 <= i < |word| :: 'a' <= word[i] <= 'z'
  }

  lemma SpellingIgnoresCase(name: string, word: string)
    requires SmallLetters(word)
    ensures Spells(name, word) <==> Lower(name) == word
  {
    if Lower(name) == word {
      forall i | 0 <= i < |name|
        ensures name[i] == word[i] || ('A' <= name[i] <= 'Z' && name[i] as int + 32 == word[i] as int)
      {
        assert LowerChar(name[i]) == Lower(name)[i] == word[i];
      }
    }
  }

  lemma WordsAreSmall()
    ensures SmallLetters("true") && SmallLetters("false") && SmallLetters("null") && SmallLetters("none")
  {
  }

  lemma WhatAnOperandStandsFor(atom: Atom, ctx: Context, v: Value)
    requires StandsFor(atom, ctx, v)
    ensures AtomValue(atom, ctx) == v && AtomUnread(atom, ctx) == if v.Unread? then {atom.name} else {}
  {
    WordsAreSmall();
    if atom.Path? {
      SpellingIgnoresCase(atom.name, "true");
      SpellingIgnoresCase(atom.name, "false");
      SpellingIgnoresCase(atom.name, "null");
      SpellingIgnoresCase(atom.name, "none");
    }
    hide Lower, Spells;
  }

  /** Every operand stands for exactly one of these. */
  lemma EveryOperandStandsForOneValue(atom: Atom, ctx: Context)
    ensures exists v :: StandsFor(atom, ctx, v)
    ensures forall v, w | StandsFor(atom, ctx, v) && StandsFor(atom, ctx, w) :: v == w
  {
    forall v, w | StandsFor(atom, ctx, v) && StandsFor(atom, ctx, w) ensures v == w {
      WhatAnOperandStandsFor(atom, ctx, v);
      WhatAnOperandStandsFor(atom, ctx, w);
    }
    hide Spells;
    match atom
    case Str(text) => assert StandsFor(atom, ctx, Text(text));
    case Num(value) => assert StandsFor(atom, ctx, Number(value));
    case Path(name) =>
      if Spells(name, "true") {
        assert StandsFor(atom, ctx, Flag(true));
      } else if SpellsFalse(name) {
        assert StandsFor(atom, ctx, Flag(false));
      } else if name in ctx.Keys {
        assert StandsFor(atom, ctx, Text(ctx[name]));
      } else {
        assert StandsFor(atom, ctx, Unread);
      }
  }

  // What is lacking when a value is not known.
  ghost function Named(atom: Atom, v: Value): set<string>
    requires v.Unread? ==> atom.Path?
  {
    if v.Unread? then {atom.name} else {}
  }

  lemma OneOperandIsOneWord(atom: Atom)
    ensures Condensed([Operand(atom)]) == [Held(atom, 0)]
  {
    assert [Operand(atom)][1..] == [];
  }

  lemma ALeafIsItsOperand(atom: Atom, ctx: Context, p: Platform)
    ensures
      var leaf := Leaf(atom, 0);
      && Print(leaf, 0) == Print(leaf, 4) == [Held(atom, 0)] && Nest(leaf, 0) == Nest(leaf, 4) == 0
      && Compared(leaf, ctx, p) == AtomValue(atom, ctx) && Verdict(leaf, ctx, p) == Truth(AtomValue(atom, ctx))
      && Lacking(leaf, ctx) == AtomUnread(atom, ctx)
  {
    hide AtomValue, AtomUnread, Truth;
  }

  /** An operand alone holds when it is a text or number that is not empty or zero, or a true flag. */
  lemma AnOperandAloneIsAnswered(atom: Atom, v: Value, ctx: Context, p: Platform)
    requires StandsFor(atom, ctx, v)
    ensures
      var answer := Evaluate([Operand(atom)], ctx, p);
      match v
      case Unread => answer == Ok(Condition(None, {atom.name}))
      case Text(text) => answer == Ok(Condition(Some(|text| > 0), {}))
      case Flag(flag) => answer == Ok(Condition(Some(flag), {}))
      case Number(value) => answer == Ok(Condition(Some(value < 0.0 || value > 0.0), {}))
  {
    OneOperandIsOneWord(atom);
    ALeafIsItsOperand(atom, ctx, p);
    TextsOfATreeReadAsIt(Leaf(atom, 0), [Operand(atom)], ctx, p);
    WhatAnOperandStandsFor(atom, ctx, v);
    hide Evaluate, Print, Nest, Verdict, Lacking, StandsFor, AtomValue, AtomUnread;
  }

  /** Whether a value is read as that number beside a value of another kind. */
  ghost predicate ReadsAs(v: Value, n: Float, p: Platform) {
    && !n.NaN?
    && match v
       case Unread => false
       case Text(text) => p.number(text) == Some(n)
       case Flag(flag) => n == Finite(if flag then 1.0 else 0.0)
       case Number(value) => n == Finite(value)
  }

  /** Two texts are equal but for case, two flags or numbers as they are, unlike kinds as one number. */
  ghost predicate AreEqual(v: Value, w: Value, p: Platform) {
    || (v.Text? && w.Text? && p.fold(v.text) == p.fold(w.text))
    || (v.Flag? && w.Flag? && v.flag == w.flag)
    || (v.Number? && w.Number? && v.value == w.value)
    || (!(v.Text? && w.Text?) && !(v.Flag? && w.Flag?) && !(v.Number? && w.Number?)
        && exists n :: ReadsAs(v, n, p) && ReadsAs(w, n, p))
  }

  lemma EqualityByKinds(v: Value, w: Value, p: Platform)
    requires !v.Unread? && !w.Unread?
    ensures Same(v, w, p) <==> AreEqual(v, w, p)
  {
    if Reading(v, p).Some? && Reading(v, p) == Reading(w, p) {
      assert ReadsAs(v, Reading(v, p).value, p) && ReadsAs(w, Reading(v, p).value, p);
    }
  }

  lemma ThreeTokens(a: Atom, op: Operator, b: Atom)
    requires op != Open
    ensures Condensed([Operand(a), Op(op), Operand(b)]) == [Held(a, 0), Sign(op), Held(b, 0)]
  {
    OneOperandIsOneWord(b);
    assert [Operand(a), Op(op), Operand(b)][1..] == [Op(op), Operand(b)];
    assert [Op(op), Operand(b)][1..] == [Operand(b)];
    hide OneOperandAhead, Leading;
    assert Condensed([Op(op), Operand(b)]) == [Sign(op)] + Condensed([Operand(b)]);
  }

  /**
   * A comparison of two known operands is decided by whether they are equal, and one with a path the
   * run does not carry is not decided and names it.
   */
  lemma AComparisonIsAnswered(a: Atom, b: Atom, v: Value, w: Value, ctx: Context, p: Platform)
    requires StandsFor(a, ctx, v) && StandsFor(b, ctx, w)
    ensures
      var same, differ := Evaluate([Operand(a), Op(EqualOp), Operand(b)], ctx, p),
                          Evaluate([Operand(a), Op(DiffersOp), Operand(b)], ctx, p);
      if v.Unread? || w.Unread? then
        same == differ == Ok(Condition(None, Named(a, v) + Named(b, w)))
      else
        && same == Ok(Condition(Some(AreEqual(v, w, p)), {}))
        && differ == Ok(Condition(Some(!AreEqual(v, w, p)), {}))
  {
    WhatAnOperandStandsFor(a, ctx, v);
    WhatAnOperandStandsFor(b, ctx, w);
    OneComparison(a, true, b, ctx, p);
    OneComparison(a, false, b, ctx, p);
    if !v.Unread? && !w.Unread? { EqualityByKinds(v, w, p); }
    hide AtomValue, AtomUnread, Same, AreEqual, StandsFor, Evaluate;
  }

  lemma OneComparison(a: Atom, equal: bool, b: Atom, ctx: Context, p: Platform)
    ensures
      var verdict := Comparison(equal, AtomValue(a, ctx), AtomValue(b, ctx), p);
      Evaluate([Operand(a), Op(if equal then EqualOp else DiffersOp), Operand(b)], ctx, p)
      == Ok(Condition(verdict, if verdict.Some? then {} else AtomUnread(a, ctx) + AtomUnread(b, ctx)))
  {
    var op := if equal then EqualOp else DiffersOp;
    var e := Cmp(equal, Leaf(a, 0), Leaf(b, 0));
    ThreeTokens(a, op, b);
    ALeafIsItsOperand(a, ctx, p);
    ALeafIsItsOperand(b, ctx, p);
    assert Print(e, 0) == Bare(e) && Nest(e, 0) == BareNest(e) == 0;
    assert Verdict(e, ctx, p) == Comparison(equal, AtomValue(a, ctx), AtomValue(b, ctx), p);
    assert Lacking(e, ctx) == AtomUnread(a, ctx) + AtomUnread(b, ctx);
    TextsOfATreeReadAsIt(e, [Operand(a), Op(op), Operand(b)], ctx, p);
    hide Evaluate, Comparison, AtomValue, AtomUnread, Print, Condensed, Nest, Verdict, Lacking;
  }

  /** What holds an operator is compared as the flag of its verdict, and undecided with it. */
  lemma AGroupComparesAsItsVerdict(e: Expr, c: Atom, flag: bool, ctx: Context, p: Platform)
    requires !e.Leaf? && StandsFor(c, ctx, Flag(flag)) && Clear(Print(Cmp(true, e, Leaf(c, 0)), 0))
    requires Nest(Cmp(true, e, Leaf(c, 0)), 0) <= 64
    ensures
      var answer := Evaluate(Spelled(Print(Cmp(true, e, Leaf(c, 0)), 0)), ctx, p);
      var verdict := Verdict(e, ctx, p);
      answer.Ok? && answer.value.value == if verdict.None? then None else Some(verdict.value == flag)
  {
    WhatAnOperandStandsFor(c, ctx, Flag(flag));
    ALeafIsItsOperand(c, ctx, p);
    assert Compared(e, ctx, p) == AsValue(Verdict(e, ctx, p));
    assert Verdict(Cmp(true, e, Leaf(c, 0)), ctx, p) == Comparison(true, Compared(e, ctx, p), Flag(flag), p);
    PrintedTreesReadBack(Cmp(true, e, Leaf(c, 0)), ctx, p);
    hide Print, Nest, Evaluate, Verdict, StandsFor;
  }
}
