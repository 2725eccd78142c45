/** What a condition's verdict under a partial context says about every fuller one. */
module ConditionCompletion {
  import opened Prelude
  import opened Conditions

  /** The second context agrees with the first wherever the first has a value. */
  ghost predicate Extends(ctx: Context, more: Context) {
    forall path | path in ctx :: path in more && more[path] == ctx[path]
  }

  /** The same tokens are left, nothing new is unread, and no verdict that was there changed. */
  ghost predicate Sharper(a: Parsed<Option<bool>>, b: Parsed<Option<bool>>, more: Context) {
    && (a.Refused? <==> b.Refused?)
    && (a.Refused? ==> a.why == b.why)
    && (a.Read? ==>
          && a.rest == b.rest
          && b.unread == a.unread - more.Keys
          && (a.value.Some? ==> b.value == a.value)
          && (b.value.None? ==> b.unread != {}))
  }

  ghost predicate SharperOperand(a: Parsed<Value>, b: Parsed<Value>, more: Context) {
    && (a.Refused? <==> b.Refused?)
    && (a.Refused? ==> a.why == b.why)
    && (a.Read? ==>
          && a.rest == b.rest
          && b.unread == a.unread - more.Keys
          && (!a.value.Unread? ==> b.value == a.value)
          && (b.value.Unread? ==> b.unread != {}))
  }

  lemma {:induction false} SharperOr(tokens: Tokens, ctx: Context, more: Context, p: Platform, depth: nat)
    requires Extends(ctx, more)
    ensures Sharper(ReadOr(tokens, ctx, p, depth), ReadOr(tokens, more, p, depth), more)
    decreases |tokens|, 6
  {
    if depth <= MAX_DEPTH {
      SharperAnd(tokens, ctx, more, p, depth);
      var a, b := ReadAnd(tokens, ctx, p, depth), ReadAnd(tokens, more, p, depth);
      if a.Read? {
        SharperOrTail(a.value, b.value, a.rest, a.unread, b.unread, ctx, more, p, depth);
      }
    }
  }

  lemma {:induction false} SharperOrTail(a: Option<bool>, b: Option<bool>, rest: Tokens, before: set<string>,
                                         after: set<string>,
                                         ctx: Context, more: Context, p: Platform, depth: nat)
    requires Extends(ctx, more)
    requires Sharper(Read(a, rest, before), Read(b, rest, after), more)
    ensures Sharper(OrTail(a, rest, before, ctx, p, depth), OrTail(b, rest, after, more, p, depth), more)
    decreases |rest|, 5
  {
    if Is(rest, OrOp) {
      SharperAnd(rest[1..], ctx, more, p, depth);
      var x, y := ReadAnd(rest[1..], ctx, p, depth), ReadAnd(rest[1..], more, p, depth);
      if x.Read? {
        SharperOrTail(Either(a, x.value, true), Either(b, y.value, true), x.rest, before + x.unread, after + y.unread,
                      ctx, more, p, depth);
      }
    }
  }

  lemma {:induction false} SharperAnd(tokens: Tokens, ctx: Context, more: Context, p: Platform, depth: nat)
    requires Extends(ctx, more)
    ensures Sharper(ReadAnd(tokens, ctx, p, depth), ReadAnd(tokens, more, p, depth), more)
    decreases |tokens|, 4
  {
    SharperNot(tokens, ctx, more, p, depth);
    var a, b := ReadNot(tokens, ctx, p, depth), ReadNot(tokens, more, p, depth);
    if a.Read? {
      SharperAndTail(a.value, b.value, a.rest, a.unread, b.unread, ctx, more, p, depth);
    }
  }

  lemma {:induction false} SharperAndTail(a: Option<bool>, b: Option<bool>, rest: Tokens, before: set<string>,
                                          after: set<string>,
                                          ctx: Context, more: Context, p: Platform, depth: nat)
    requires Extends(ctx, more)
    requires Sharper(Read(a, rest, before), Read(b, rest, after), more)
    ensures Sharper(AndTail(a, rest, before, ctx, p, depth), AndTail(b, rest, after, more, p, depth), more)
    decreases |rest|, 3
  {
    if Is(rest, AndOp) {
      SharperNot(rest[1..], ctx, more, p, depth);
      var x, y := ReadNot(rest[1..], ctx, p, depth), ReadNot(rest[1..], more, p, depth);
      if x.Read? {
        SharperAndTail(Either(a, x.value, false), Either(b, y.value, false), x.rest,
                       before + x.unread, after + y.unread, ctx, more, p, depth);
      }
    }
  }

  lemma {:induction false} SharperNot(tokens: Tokens, ctx: Context, more: Context, p: Platform, depth: nat)
    requires Extends(ctx, more)
    ensures Sharper(ReadNot(tokens, ctx, p, depth), ReadNot(tokens, more, p, depth), more)
    decreases |tokens|, 2
  {
    if depth <= MAX_DEPTH {
      if Is(tokens, NotOp) {
        SharperNot(tokens[1..], ctx, more, p, depth + 1);
      } else {
        SharperComparison(tokens, ctx, more, p, depth);
      }
    }
  }

  lemma {:induction false} SharperComparison(tokens: Tokens, ctx: Context, more: Context, p: Platform, depth: nat)
    requires Extends(ctx, more)
    ensures Sharper(ReadComparison(tokens, ctx, p, depth), ReadComparison(tokens, more, p, depth), more)
    decreases |tokens|, 1
  {
    SharperOperandRead(tokens, ctx, more, p, depth);
    var a := ReadOperand(tokens, ctx, p, depth);
    if a.Read? && (Is(a.rest, EqualOp) || Is(a.rest, DiffersOp)) {
      SharperOperandRead(a.rest[1..], ctx, more, p, depth);
    }
  }

  lemma {:induction false} SharperOperandRead(tokens: Tokens, ctx: Context, more: Context, p: Platform, depth: nat)
    requires Extends(ctx, more)
    ensures SharperOperand(ReadOperand(tokens, ctx, p, depth), ReadOperand(tokens, more, p, depth), more)
    decreases |tokens|, 0
  {
    if depth <= MAX_DEPTH && tokens != [] && tokens[0] == Op(Open) {
      if OneOperandAhead(tokens[1..]) {
        var opens := Leading(tokens[1..], Open);
        SharperOperandRead(tokens[1..][opens..], ctx, more, p, depth + opens + 1);
      } else {
        SharperOr(tokens[1..], ctx, more, p, depth + 1);
      }
    }
  }

  /** A decided condition is decided the same way under every context that agrees on what was known. */
  lemma DecidedSurvivesCompletion(tokens: Tokens, ctx: Context, more: Context, p: Platform)
    requires Extends(ctx, more)
    ensures
      var partial, full := Evaluate(tokens, ctx, p), Evaluate(tokens, more, p);
      && (partial.Ok? && partial.value.value.Some? ==> full == partial)
      && (partial.Ok? <==> full.Ok?)
      && (full.Ok? ==> full.value.unread <= partial.value.unread)
  {
    SharperOr(tokens, ctx, more, p, 0);
  }

  /** Whether a condition is refused, and why, is the same for every event. */
  lemma RefusalDoesNotDependOnTheContext(tokens: Tokens, one: Context, other: Context, p: Platform)
    ensures Evaluate(tokens, one, p).Err? <==> Evaluate(tokens, other, p).Err?
    ensures Evaluate(tokens, one, p).Err? ==> Evaluate(tokens, one, p) == Evaluate(tokens, other, p)
  {
    SharperOr(tokens, map[], one, p, 0);
    SharperOr(tokens, map[], other, p, 0);
  }

  /** An undecided condition names a path the run lacks; a decided one names none. */
  lemma UndecidedNamesWhatItLacks(tokens: Tokens, ctx: Context, p: Platform)
    requires Evaluate(tokens, ctx, p).Ok?
    ensures
      var c := Evaluate(tokens, ctx, p).value;
      && (c.value.None? <==> c.unread != {})
      && c.unread !! ctx.Keys
  {
    SharperOr(tokens, ctx, ctx, p, 0);
  }

  /** Supplying every path an undecided condition names decides it, whatever the values are. */
  lemma SupplyingWhatIsUnreadDecides(tokens: Tokens, ctx: Context, more: Context, p: Platform)
    requires Extends(ctx, more) && Evaluate(tokens, ctx, p).Ok?
    requires Evaluate(tokens, ctx, p).value.unread <= more.Keys
    ensures Evaluate(tokens, more, p).Ok? && Evaluate(tokens, more, p).value.value.Some?
  {
    SharperOr(tokens, ctx, more, p, 0);
  }
}
