/** The condition reader as the broker runs it: a descent that collects the paths it could not read. */
module ConditionReader {
  import opened Prelude
  import opened Conditions

  type Term = Result<(Option<bool>, Tokens), Refusal>

  /** A term read by the methods below is the one the specification reads, with its unread paths added. */
  ghost predicate Agrees(term: Term, spec: Parsed<Option<bool>>, before: set<string>, after: set<string>) {
    match spec
    case Refused(why) => term == Err(why)
    case Read(value, rest, unread) => term == Ok((value, rest)) && after == before + unread
  }

  class Reader {
    const ctx: Context
    const p: Platform
    var unread: set<string>

    constructor (ctx: Context, p: Platform)
      ensures this.ctx == ctx && this.p == p && unread == {}
    {
      this.ctx, this.p, unread := ctx, p, {};
    }

    method ReadCondition(tokens: Tokens) returns (answer: Result<Condition, Refusal>)
      requires unread == {}
      modifies this
      ensures answer == Evaluate(tokens, ctx, p)
    {
      if tokens == [] {
        return Err(Empty);
      }
      var term := ReadDisjunction(tokens, 0);
      if term.Err? {
        return Err(term.error);
      }
      var (value, rest) := term.value;
      if rest != [] {
        return Err(Unreadable(rest[0]));
      }
      assert unread == ReadOr(tokens, ctx, p, 0).unread;
      return Ok(Condition(value, if value.Some? then {} else unread));
    }

    method ReadDisjunction(tokens: Tokens, depth: nat) returns (term: Term)
      modifies this
      ensures Agrees(term, ReadOr(tokens, ctx, p, depth), old(unread), unread)
      decreases |tokens|, 4
    {
      if depth > MAX_DEPTH {
        return Err(TooDeep);
      }
      term := ReadConjunction(tokens, depth);
      if term.Err? {
        return;
      }
      var (value, rest) := term.value;
      ghost var seen := ReadAnd(tokens, ctx, p, depth).unread;
      while Is(rest, OrOp)
        invariant |rest| < |tokens| && unread == old(unread) + seen
        invariant ReadOr(tokens, ctx, p, depth) == OrTail(value, rest, seen, ctx, p, depth)
        decreases |rest|
      {
        seen := seen + if ReadAnd(rest[1..], ctx, p, depth).Read? then ReadAnd(rest[1..], ctx, p, depth).unread else {};
        term := ReadConjunction(rest[1..], depth);
        if term.Err? {
          return;
        }
        value, rest := Either(value, term.value.0, true), term.value.1;
      }
      return Ok((value, rest));
    }

    method ReadConjunction(tokens: Tokens, depth: nat) returns (term: Term)
      modifies this
      ensures Agrees(term, ReadAnd(tokens, ctx, p, depth), old(unread), unread)
      decreases |tokens|, 3
    {
      term := ReadNegation(tokens, depth);
      if term.Err? {
        return;
      }
      var (value, rest) := term.value;
      ghost var seen := ReadNot(tokens, ctx, p, depth).unread;
      while Is(rest, AndOp)
        invariant |rest| < |tokens| && unread == old(unread) + seen
        invariant ReadAnd(tokens, ctx, p, depth) == AndTail(value, rest, seen, ctx, p, depth)
        decreases |rest|
      {
        seen := seen + if ReadNot(rest[1..], ctx, p, depth).Read? then ReadNot(rest[1..], ctx, p, depth).unread else {};
        term := ReadNegation(rest[1..], depth);
        if term.Err? {
          return;
        }
        value, rest := Either(value, term.value.0, false), term.value.1;
      }
      return Ok((value, rest));
    }

    method ReadNegation(tokens: Tokens, depth: nat) returns (term: Term)
      modifies this
      ensures Agrees(term, ReadNot(tokens, ctx, p, depth), old(unread), unread)
      decreases |tokens|, 2
    {
      if depth > MAX_DEPTH {
        return Err(TooDeep);
      }
      if Is(tokens, NotOp) {
        term := ReadNegation(tokens[1..], depth + 1);
        if term.Ok? {
          term := Ok((Negated(term.value.0), term.value.1));
        }
        return;
      }
      term := ReadCompared(tokens, depth);
    }

    method ReadCompared(tokens: Tokens, depth: nat) returns (term: Term)
      modifies this
      ensures Agrees(term, ReadComparison(tokens, ctx, p, depth), old(unread), unread)
      decreases |tokens|, 1
    {
      var left := ReadSide(tokens, depth);
      if left.Err? {
        return Err(left.error);
      }
      var (value, rest) := left.value;
      if !Is(rest, EqualOp) && !Is(rest, DiffersOp) {
        return Ok((Truth(value), rest));
      }
      var right := ReadSide(rest[1..], depth);
      if right.Err? {
        return Err(right.error);
      }
      return Ok((Compare(Is(rest, EqualOp), value, right.value.0, p), right.value.1));
    }

    method ReadSide(tokens: Tokens, depth: nat) returns (side: Result<(Value, Tokens), Refusal>)
      modifies this
      ensures
        match ReadOperand(tokens, ctx, p, depth)
        case Refused(why) => side == Err(why)
        case Read(value, rest, more) => side == Ok((value, rest)) && unread == old(unread) + more
      decreases |tokens|, 0
    {
      if depth > MAX_DEPTH {
        return Err(TooDeep);
      }
      if tokens == [] {
        return Err(EndsEarly);
      }
      var rest := tokens[1..];
      if tokens[0].Operand? {
        unread := unread + AtomUnread(tokens[0].atom, ctx);
        return Ok((AtomValue(tokens[0].atom, ctx), rest));
      }
      if tokens[0] != Op(Open) {
        return Err(Unreadable(tokens[0]));
      }
      var opens := CountLeading(rest, Open);
      if opens + 1 < |rest| && rest[opens].Operand? && rest[opens + 1] == Op(Close) {
        side := ReadSide(rest[opens..], depth + opens + 1);
        if side.Ok? {
          var (value, after) := side.value;
          var closes := CountLeading(after, Close);
          side := Ok((value, after[closes..]));
        }
        return;
      }
      var term := ReadDisjunction(rest, depth + 1);
      if term.Err? {
        return Err(term.error);
      }
      var (value, after) := term.value;
      if !Is(after, Close) {
        return Err(Unbalanced);
      }
      return Ok((AsValue(value), after[1..]));
    }

    method CountLeading(tokens: Tokens, op: Operator) returns (n: nat)
      ensures n == Leading(tokens, op)
    {
      n := 0;
      while n < |tokens| && tokens[n] == Op(op)
        invariant n <= |tokens|
        invariant Leading(tokens, op) == n + Leading(tokens[n..], op)
      {
        n := n + 1;
      }
    }
  }
}
