/**
 * A condition's text as the reader takes it, word by word. An operand in parentheses is one word: the
 * reader's shortcut for it takes every opening parenthesis before the operand and every closing one
 * behind it, whichever of them were written for it.
 */
module ConditionWords {
  import opened Prelude
  import opened Conditions

  // A sign on its own, or an operand with the number of parentheses that were opened before it.
  datatype Word = Sign(op: Operator) | Held(atom: Atom, wraps: nat)

  type Words = seq<Word>

  /** What the reader takes first. */
  function First(tokens: Tokens): Word
    requires tokens != []
  {
    if tokens[0].Operand? then Held(tokens[0].atom, 0)
    else if tokens[0] == Op(Open) && OneOperandAhead(tokens[1..]) then
      var opens := Leading(tokens[1..], Open);
      Held(tokens[1..][opens].atom, opens + 1)
    else Sign(tokens[0].op)
  }

  /** What the first word leaves. */
  function Next(tokens: Tokens): (rest: Tokens)
    requires tokens != []
    ensures |rest| < |tokens|
  {
    if tokens[0] == Op(Open) && OneOperandAhead(tokens[1..]) then
      var after := tokens[1..][Leading(tokens[1..], Open) + 1..];
      after[Leading(after, Close)..]
    else tokens[1..]
  }

  function Condensed(tokens: Tokens): Words {
    if tokens == [] then [] else [First(tokens)] + Condensed(Next(tokens))
  }

  /** What the first `n` words leave. */
  function Skip(tokens: Tokens, n: nat): Tokens {
    if n == 0 || tokens == [] then tokens else Skip(Next(tokens), n - 1)
  }

  lemma {:induction false} WordsAfter(tokens: Tokens, n: nat)
    requires n <= |Condensed(tokens)|
    ensures Condensed(Skip(tokens, n)) == Condensed(tokens)[n..]
    decreases n
  {
    hide First, Next;
    if n > 0 { WordsAfter(Next(tokens), n - 1); }
  }

  lemma {:induction false} SkipTwice(tokens: Tokens, m: nat, n: nat)
    ensures Skip(Skip(tokens, m), n) == Skip(tokens, m + n)
    decreases m
  {
    hide Next;
    if m > 0 && tokens != [] {
      SkipTwice(Next(tokens), m - 1, n);
      assert Skip(tokens, m) == Skip(Next(tokens), m - 1) && Skip(tokens, m + n) == Skip(Next(tokens), m - 1 + n);
    }
  }

  /** A sign other than an opening parenthesis is always a word of its own. */
  lemma ASignIsAWord(tokens: Tokens, op: Operator)
    requires op != Open
    ensures Is(tokens, op) <==> Condensed(tokens) != [] && Condensed(tokens)[0] == Sign(op)
    ensures Is(tokens, op) ==> Next(tokens) == tokens[1..]
  {
  }

  // ---- writing words as text ----

  function Repeat(op: Operator, n: nat): Tokens {
    if n == 0 then [] else [Op(op)] + Repeat(op, n - 1)
  }

  function Group(tokens: Tokens): Tokens {
    [Op(Open)] + tokens + [Op(Close)]
  }

  function Signs(op: Operator, n: nat): Words {
    if n == 0 then [] else [Sign(op)] + Signs(op, n - 1)
  }

  function Spell(word: Word): Tokens {
    match word
    case Sign(op) => [Op(op)]
    case Held(atom, wraps) => Repeat(Open, wraps) + [Operand(atom)] + Repeat(Close, wraps)
  }

  function Spelled(words: Words): Tokens {
    if words == [] then [] else Spell(words[0]) + Spelled(words[1..])
  }

  /** Whether the word at `i`, if it is an operand, has no parenthesis beside it that it would take. */
  predicate ClearAt(words: Words, i: nat)
    requires i < |words|
  {
    var before, behind := i > 0 && words[i - 1] == Sign(Open), i + 1 < |words| && words[i + 1] == Sign(Close);
    match words[i]
    case Sign(_) => true
    case Held(_, wraps) => if wraps == 0 then !(before && behind) else !before && !behind
  }

  predicate Clear(words: Words) {
    forall i | 0 <= i < |words| :: ClearAt(words, i)
  }

  lemma {:induction false} LeadingRepeat(op: Operator, n: nat, tail: Tokens)
    requires !Is(tail, op)
    ensures Leading(Repeat(op, n) + tail, op) == n == |Repeat(op, n)|
    ensures (Repeat(op, n) + tail)[n..] == tail
  {
    if n > 0 {
      LeadingRepeat(op, n - 1, tail);
      assert (Repeat(op, n) + tail)[1..] == Repeat(op, n - 1) + tail;
    } else {
      assert Repeat(op, 0) + tail == tail;
    }
  }

  lemma OperandBehindOpens(atom: Atom, n: nat, after: Tokens)
    ensures
      var tokens := Repeat(Open, n) + ([Operand(atom)] + after);
      && Leading(tokens, Open) == n < |tokens| && tokens[n] == Operand(atom) && tokens[n + 1..] == after
      && (Is(after, Close) ==> OneOperandAhead(tokens))
  {
    var inside := [Operand(atom)] + after;
    var tokens := Repeat(Open, n) + inside;
    LeadingRepeat(Open, n, inside);
    hide Leading, Repeat;
    assert tokens[n..] == inside;
    assert tokens[n] == inside[0] && tokens[n + 1..] == inside[1..] == after;
    if Is(after, Close) { assert tokens[n + 1] == inside[1] == after[0]; }
  }

  lemma OneFewer(op: Operator, n: nat, tokens: Tokens)
    requires n > 0
    ensures Repeat(op, n) + tokens == [Op(op)] + (Repeat(op, n - 1) + tokens)
    ensures n == 1 ==> Repeat(op, n) + tokens == [Op(op)] + tokens && Signs(op, n) == [Sign(op)]
    ensures Signs(op, n) == [Sign(op)] + Signs(op, n - 1)
    ensures n > 1 ==> Repeat(op, n - 1) + tokens != [] && (Repeat(op, n - 1) + tokens)[0] == Op(op)
  {
    if n == 1 { assert Repeat(op, 0) + tokens == tokens; }
  }

  lemma Behind(token: Token, tokens: Tokens)
    ensures ([token] + tokens)[0] == token && ([token] + tokens)[1..] == tokens
  {
  }

  /** An operand behind some parentheses and before others is one word, which takes them all. */
  lemma AWrappedOperandIsOneWord(atom: Atom, opens: nat, closes: nat, rest: Tokens)
    requires opens > 0 && closes > 0 && !Is(rest, Close)
    ensures
      var tokens := Repeat(Open, opens) + ([Operand(atom)] + (Repeat(Close, closes) + rest));
      First(tokens) == Held(atom, opens) && Next(tokens) == rest
  {
    hide *;
    var after := Repeat(Close, closes) + rest;
    var inside := [Operand(atom)] + after;
    var fewer := Repeat(Open, opens - 1) + inside;
    OneFewer(Open, opens, inside);
    Behind(Op(Open), fewer);
    OneFewer(Close, closes, rest);
    ItIs(Close, Repeat(Close, closes - 1) + rest);
    LeadingRepeat(Close, closes, rest);
    OperandBehindOpens(atom, opens - 1, after);
    WhatIsAhead([Op(Open)] + fewer);
  }

  lemma ItIs(op: Operator, tokens: Tokens)
    ensures Is([Op(op)] + tokens, op)
  {
  }

  lemma WhatIsAhead(tokens: Tokens)
    requires tokens != [] && tokens[0] == Op(Open) && OneOperandAhead(tokens[1..])
    ensures
      var opens := Leading(tokens[1..], Open);
      && opens < |tokens[1..]| && tokens[1..][opens].Operand?
      && First(tokens) == Held(tokens[1..][opens].atom, opens + 1)
      && var after := tokens[1..][opens + 1..];
         Next(tokens) == after[Leading(after, Close)..]
  {
  }

  lemma WrappedFirst(atom: Atom, opens: nat, closes: nat, rest: Tokens)
    requires opens > 0 && closes > 0 && !Is(rest, Close)
    ensures Condensed(Repeat(Open, opens) + ([Operand(atom)] + (Repeat(Close, closes) + rest)))
         == [Held(atom, opens)] + Condensed(rest)
  {
    AWrappedOperandIsOneWord(atom, opens, closes, rest);
    hide First, Next, Repeat;
  }

  lemma ASignFirst(op: Operator, rest: Tokens)
    requires op != Open
    ensures Condensed([Op(op)] + rest) == [Sign(op)] + Condensed(rest)
  {
    assert ([Op(op)] + rest)[1..] == rest;
  }

  lemma SkippingAnOpen(tokens: Tokens)
    requires Is(tokens, Open)
    ensures OneOperandAhead(tokens) == OneOperandAhead(tokens[1..])
  {
    assert Leading(tokens, Open) == 1 + Leading(tokens[1..], Open);
  }

  /** Behind an opening parenthesis that is a sign of its own stands no operand that would take it. */
  lemma {:induction false} NoOperandAhead(words: Words)
    requires Clear([Sign(Open)] + words)
    ensures !OneOperandAhead(Spelled(words))
  {
    if words != [] {
      var more := [Sign(Open)] + words;
      assert ClearAt(more, 1);
      match words[0]
      case Sign(op) =>
        assert Spelled(words) == [Op(op)] + Spelled(words[1..]);
        if op == Open {
          assert more[1..] == [Sign(Open)] + words[1..];
          TailIsClear(more);
          SkippingAnOpen(Spelled(words));
          assert Spelled(words)[1..] == Spelled(words[1..]);
          NoOperandAhead(words[1..]);
        }
      case Held(atom, wraps) =>
        assert wraps == 0 ==> Spelled(words) == [Operand(atom)] + Spelled(words[1..]);
        if words[1..] != [] { FirstIsNoClose(words[1..]); }
    }
  }

  lemma TailIsClear(words: Words)
    requires words != [] && Clear(words)
    ensures Clear(words[1..])
  {
    forall i | 0 <= i < |words| - 1 ensures ClearAt(words[1..], i) {
      assert ClearAt(words, i + 1);
    }
  }

  lemma FirstIsNoClose(words: Words)
    requires words != []
    ensures Is(Spelled(words), Close) <==> words[0] == Sign(Close)
  {
    if words[0].Held? && words[0].wraps > 0 { assert Repeat(Open, words[0].wraps)[0] == Op(Open); }
  }

  /** What the reader takes from any text has no parenthesis left beside an operand in parentheses. */
  lemma {:induction false} CondensedIsClear(tokens: Tokens)
    ensures Clear(Condensed(tokens))
    decreases |tokens|
  {
    if tokens != [] {
      var next := Next(tokens);
      var words, rest := Condensed(tokens), Condensed(next);
      CondensedIsClear(next);
      forall i | 0 <= i < |words| ensures ClearAt(words, i) {
        if i >= 2 {
          assert ClearAt(rest, i - 1);
        } else if i == 1 {
          assert ClearAt(rest, 0);
          SecondIsClear(tokens);
        } else {
          FirstIsClear(tokens);
        }
      }
    }
  }

  lemma FirstIsClear(tokens: Tokens)
    requires tokens != []
    ensures ClearAt(Condensed(tokens), 0)
  {
    var next := Next(tokens);
    if First(tokens).Held? && First(tokens).wraps > 0 && next != [] {
      var after := tokens[1..][Leading(tokens[1..], Open) + 1..];
      assert next[0] == after[Leading(after, Close)];
    }
  }

  lemma SecondIsClear(tokens: Tokens)
    requires tokens != [] && Next(tokens) != []
    ensures |Condensed(tokens)| > 1 && ClearAt(Condensed(tokens), 1)
  {
    var next := Next(tokens);
    assert Condensed(tokens)[1..] == Condensed(next);
    FirstIsClear(next);
    if First(tokens) == Sign(Open) {
      assert next == tokens[1..] && !OneOperandAhead(next);
      if next[0] == Op(Open) { SkippingAnOpen(next); }
      if First(next).Held? && First(next).wraps == 0 && Next(next) != [] {
        assert Leading(next, Open) == 0 && next[1] == Next(next)[0];
        assert Condensed(tokens)[2] == First(Next(next));
      }
    }
  }

  /** Words are read back from their text if and only if no operand takes a parenthesis beside it. */
  lemma WordsReadBackExactlyWhenClear(words: Words)
    ensures Condensed(Spelled(words)) == words <==> Clear(words)
  {
    CondensedIsClear(Spelled(words));
    if Clear(words) { ClearWordsReadBack(words); }
  }

  lemma {:induction false} ClearWordsReadBack(words: Words)
    requires Clear(words)
    ensures Condensed(Spelled(words)) == words
  {
    if words != [] {
      TailIsClear(words);
      ClearWordsReadBack(words[1..]);
      TheFirstReadsBack(words);
      hide First, Next, Clear, Spell;
      assert Spelled(words) != [];
    }
  }

  lemma TheFirstReadsBack(words: Words)
    requires words != [] && Clear(words)
    ensures
      var text := Spelled(words);
      text != [] && First(text) == words[0] && Next(text) == Spelled(words[1..])
  {
    var rest := words[1..];
    assert ClearAt(words, 0);
    if words[0].Sign? {
      if words[0].op == Open {
        assert words == [Sign(Open)] + rest;
        NoOperandAhead(rest);
      }
      hide Clear, OneOperandAhead, Leading;
      assert Spelled(words) == [Op(words[0].op)] + Spelled(rest);
    } else {
      if rest != [] { FirstIsNoClose(rest); }
      hide Clear, OneOperandAhead, Leading;
      AnOperandReadsBack(words[0].atom, words[0].wraps, Spelled(rest));
    }
  }

  lemma AnOperandReadsBack(atom: Atom, wraps: nat, rest: Tokens)
    requires wraps > 0 ==> !Is(rest, Close)
    ensures
      var text := Spell(Held(atom, wraps)) + rest;
      text != [] && First(text) == Held(atom, wraps) && Next(text) == rest
  {
    if wraps > 0 {
      hide OneOperandAhead, Leading, First, Next, Repeat;
      AWrappedOperandIsOneWord(atom, wraps, wraps, rest);
      Regroup(Repeat(Open, wraps), Operand(atom), Repeat(Close, wraps), rest);
    } else {
      assert Repeat(Open, 0) == Repeat(Close, 0) == [];
      hide OneOperandAhead, Leading, Repeat;
      assert Spell(Held(atom, 0)) + rest == [Operand(atom)] + rest;
    }
  }

  lemma Regroup(left: Tokens, middle: Token, right: Tokens, tail: Tokens)
    ensures left + [middle] + right + tail == left + ([middle] + (right + tail))
  {
  }

  // ---- the reader's operand, by its first word ----

  lemma AnOperandByItsWord(tokens: Tokens, ctx: Context, p: Platform, depth: nat)
    requires tokens != [] && depth <= MAX_DEPTH
    ensures
      var read := ReadOperand(tokens, ctx, p, depth);
      match First(tokens)
      case Held(atom, wraps) =>
        read == if depth + wraps > MAX_DEPTH then Refused(TooDeep)
                else Read(AtomValue(atom, ctx), Next(tokens), AtomUnread(atom, ctx))
      case Sign(op) =>
        if op != Open then read == Refused(Unreadable(tokens[0]))
        else
          var inner := ReadOr(Next(tokens), ctx, p, depth + 1);
          read == if inner.Refused? then Refused(inner.why)
                  else if !Is(inner.rest, Close) then Refused(Unbalanced)
                  else Read(AsValue(inner.value), inner.rest[1..], inner.unread)
  {
    if tokens[0] == Op(Open) && OneOperandAhead(tokens[1..]) {
      var opens := Leading(tokens[1..], Open);
      var inside := tokens[1..][opens..];
      assert inside[0] == tokens[1..][opens] && inside[1..] == tokens[1..][opens + 1..];
    }
  }
}
