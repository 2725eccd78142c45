/**
 * Conditions over tokens: five mutually recursive functions, one for each level of precedence,
 * give an `Option<bool>` (`None` where an operand is a path the context lacks), the tokens left
 * and the paths lacking. What the tokenizer, the number reader and case folding do is a parameter.
 */
module Conditions {
  import opened Prelude

  const MAX_DEPTH: nat := 64

  datatype Operator = OrOp | AndOp | NotOp | EqualOp | DiffersOp | Open | Close

  datatype Atom = Str(text: string) | Num(value: real) | Path(name: string)

  datatype Token = Op(op: Operator) | Operand(atom: Atom)

  type Tokens = seq<Token>

  type Context = map<string, string>

  datatype Float = NaN | Infinite(positive: bool) | Finite(value: real)

  // How the platform reads a text as a number, and how it folds case.
  datatype Platform = Platform(number: string -> Option<Float>, fold: string -> string)

  // An operand's value, under the kind GitHub compares it as.
  datatype Value = Unread | Text(text: string) | Flag(flag: bool) | Number(value: real)

  datatype Refusal = Empty | TooDeep | EndsEarly | Unbalanced | Unreadable(token: Token)

  datatype Parsed<+T> = Refused(why: Refusal) | Read(value: T, rest: Tokens, unread: set<string>)

  datatype Condition = Condition(value: Option<bool>, unread: set<string>)

  // ---- values ----

  function LowerChar(c: char): char {
    if 'A' <= c <= 'Z' then (c as int + 32) as char else c
  }

  function Lower(s: string): string {
    seq(|s|, i requires 0 <= i < |s| => LowerChar(s[i]))
  }

  predicate IsLiteral(name: string) {
    Lower(name) in {"true", "false", "null", "none"}
  }

  function AtomValue(atom: Atom, ctx: Context): Value {
    match atom
    case Str(text) => Text(text)
    case Num(value) => Number(value)
    case Path(name) =>
      if IsLiteral(name) then Flag(Lower(name) == "true")
      else if name in ctx then Text(ctx[name])
      else Unread
  }

  function AtomUnread(atom: Atom, ctx: Context): set<string> {
    if atom.Path? && !IsLiteral(atom.name) && atom.name !in ctx then {atom.name} else {}
  }

  /** An operand standing alone, as a verdict. */
  function Truth(v: Value): Option<bool> {
    match v
    case Unread => None
    case Text(text) => Some(text != "")
    case Flag(flag) => Some(flag)
    case Number(value) => Some(value != 0.0)
  }

  /** A group's verdict, as a value to compare. */
  function AsValue(verdict: Option<bool>): Value {
    if verdict.None? then Unread else Flag(verdict.value)
  }

  predicate SameNumber(a: Float, b: Float) {
    !a.NaN? && a == b
  }

  function Coerce(v: Value, p: Platform): Float
    requires !v.Unread?
  {
    match v
    case Text(text) => if p.number(text).Some? then p.number(text).value else NaN
    case Flag(flag) => if flag then Finite(1.0) else Finite(0.0)
    case Number(value) => Finite(value)
  }

  /** Like kinds compare as their kind, unlike kinds as numbers. */
  predicate Equal(a: Value, b: Value, p: Platform)
    requires !a.Unread? && !b.Unread?
  {
    if a.Text? && b.Text? then p.fold(a.text) == p.fold(b.text)
    else if a.Flag? && b.Flag? then a.flag == b.flag
    else SameNumber(Coerce(a, p), Coerce(b, p))
  }

  function Compare(equal: bool, a: Value, b: Value, p: Platform): Option<bool> {
    if a.Unread? || b.Unread? then None else Some(Equal(a, b, p) == equal)
  }

  function Either(a: Option<bool>, b: Option<bool>, decisive: bool): Option<bool> {
    if a == Some(decisive) || b == Some(decisive) then Some(decisive)
    else if a.None? || b.None? then None
    else Some(!decisive)
  }

  function Negated(a: Option<bool>): Option<bool> {
    if a.None? then None else Some(!a.value)
  }

  // ---- the descent ----

  predicate Is(tokens: Tokens, op: Operator) {
    |tokens| > 0 && tokens[0] == Op(op)
  }

  function Leading(tokens: Tokens, op: Operator): (n: nat)
    ensures n <= |tokens|
    ensures forall i | 0 <= i < n :: tokens[i] == Op(op)
    ensures n < |tokens| ==> tokens[n] != Op(op)
  {
    if Is(tokens, op) then 1 + Leading(tokens[1..], op) else 0
  }

  /** Whether what follows an opening parenthesis reads as one operand and its closing one. */
  predicate OneOperandAhead(tokens: Tokens) {
    var at := Leading(tokens, Open);
    at + 1 < |tokens| && tokens[at].Operand? && tokens[at + 1] == Op(Close)
  }

  function ReadOr(tokens: Tokens, ctx: Context, p: Platform, depth: nat): (r: Parsed<Option<bool>>)
    ensures r.Read? ==> |r.rest| < |tokens|
    decreases |tokens|, 6
  {
    if depth > MAX_DEPTH then Refused(TooDeep)
    else
      var first := ReadAnd(tokens, ctx, p, depth);
      if first.Refused? then first else OrTail(first.value, first.rest, first.unread, ctx, p, depth)
  }

  function OrTail(value: Option<bool>, rest: Tokens, unread: set<string>, ctx: Context, p: Platform, depth: nat)
    : (r: Parsed<Option<bool>>)
    ensures r.Read? ==> |r.rest| <= |rest|
    decreases |rest|, 5
  {
    if !Is(rest, OrOp) then Read(value, rest, unread)
    else
      var right := ReadAnd(rest[1..], ctx, p, depth);
      if right.Refused? then right
      else OrTail(Either(value, right.value, true), right.rest, unread + right.unread, ctx, p, depth)
  }

  function ReadAnd(tokens: Tokens, ctx: Context, p: Platform, depth: nat): (r: Parsed<Option<bool>>)
    ensures r.Read? ==> |r.rest| < |tokens|
    decreases |tokens|, 4
  {
    var first := ReadNot(tokens, ctx, p, depth);
    if first.Refused? then first else AndTail(first.value, first.rest, first.unread, ctx, p, depth)
  }

  function AndTail(value: Option<bool>, rest: Tokens, unread: set<string>, ctx: Context, p: Platform, depth: nat)
    : (r: Parsed<Option<bool>>)
    ensures r.Read? ==> |r.rest| <= |rest|
    decreases |rest|, 3
  {
    if !Is(rest, AndOp) then Read(value, rest, unread)
    else
      var right := ReadNot(rest[1..], ctx, p, depth);
      if right.Refused? then right
      else AndTail(Either(value, right.value, false), right.rest, unread + right.unread, ctx, p, depth)
  }

  function ReadNot(tokens: Tokens, ctx: Context, p: Platform, depth: nat): (r: Parsed<Option<bool>>)
    ensures r.Read? ==> |r.rest| < |tokens|
    decreases |tokens|, 2
  {
    if depth > MAX_DEPTH then Refused(TooDeep)
    else if Is(tokens, NotOp) then
      var inner := ReadNot(tokens[1..], ctx, p, depth + 1);
      if inner.Refused? then inner else Read(Negated(inner.value), inner.rest, inner.unread)
    else ReadComparison(tokens, ctx, p, depth)
  }

  function ReadComparison(tokens: Tokens, ctx: Context, p: Platform, depth: nat): (r: Parsed<Option<bool>>)
    ensures r.Read? ==> |r.rest| < |tokens|
    decreases |tokens|, 1
  {
    var left := ReadOperand(tokens, ctx, p, depth);
    if left.Refused? then Refused(left.why)
    else if !Is(left.rest, EqualOp) && !Is(left.rest, DiffersOp) then Read(Truth(left.value), left.rest, left.unread)
    else
      var right := ReadOperand(left.rest[1..], ctx, p, depth);
      if right.Refused? then Refused(right.why)
      else Read(Compare(Is(left.rest, EqualOp), left.value, right.value, p), right.rest, left.unread + right.unread)
  }

  function ReadOperand(tokens: Tokens, ctx: Context, p: Platform, depth: nat): (r: Parsed<Value>)
    ensures r.Read? ==> |r.rest| < |tokens|
    decreases |tokens|, 0
  {
    if depth > MAX_DEPTH then Refused(TooDeep)
    else if tokens == [] then Refused(EndsEarly)
    else if tokens[0].Operand? then
      Read(AtomValue(tokens[0].atom, ctx), tokens[1..], AtomUnread(tokens[0].atom, ctx))
    else if tokens[0] != Op(Open) then Refused(Unreadable(tokens[0]))
    else if OneOperandAhead(tokens[1..]) then
      var opens := Leading(tokens[1..], Open);
      var inner := ReadOperand(tokens[1..][opens..], ctx, p, depth + opens + 1);
      if inner.Refused? then inner
      else Read(inner.value, inner.rest[Leading(inner.rest, Close)..], inner.unread)
    else
      var inner := ReadOr(tokens[1..], ctx, p, depth + 1);
      if inner.Refused? then Refused(inner.why)
      else if !Is(inner.rest, Close) then Refused(Unbalanced)
      else Read(AsValue(inner.value), inner.rest[1..], inner.unread)
  }

  function Evaluate(tokens: Tokens, ctx: Context, p: Platform): Result<Condition, Refusal> {
    if tokens == [] then Err(Empty)
    else
      var read := ReadOr(tokens, ctx, p, 0);
      if read.Refused? then Err(read.why)
      else if read.rest != [] then Err(Unreadable(read.rest[0]))
      else Ok(Condition(read.value, if read.value.Some? then {} else read.unread))
  }
}
