/** The policy grammar as a derivation relation between syntax trees and token sequences. It is
    independent of any parsing strategy: a node is derived by some split of the tokens. */
module VaultGrammar {
  import opened Options
  import opened VaultAst
  import opened VaultLexer

  const AND := Ident("and")
  const OR := Ident("or")
  const NOT := Ident("not")
  const ALLOW_WHEN := Ident("allow_when")
  const RELOCK_AFTER := Ident("relock_after")

  function VariableName(v: Variable): string
    requires v != UnknownVariable
  {
    match v
    case Hour => "hour"
    case Weekday => "weekday"
    case DayOfMonth => "day_of_month"
    case SecondsSinceBoot => "seconds_since_boot"
    case PulseMode => "pulse_mode"
    case Tether => "tether"
    case NetworkSsid => "network_ssid"
    case OracleScore => "oracle_score"
  }

  function OperatorToken(op: Operator): Token
    requires op != NoOperator
  {
    match op
    case Eq => EqEq
    case Ne => NotEq
    case Lt => Less
    case Le => LessEq
    case Gt => Greater
    case Ge => GreaterEq
    case In => Ident("in")
    case Between => Ident("between")
  }

  /** Comma-separated list items, identifiers or strings, with an optional trailing comma. */
  ghost predicate DerivesItems(items: seq<string>, ts: seq<Token>)
    decreases |ts|
  {
    if ts == [] then items == []
    else
      && items != []
      && (ts[0] == Ident(items[0]) || ts[0] == Str(items[0]))
      && (if |ts| == 1 then |items| == 1 else ts[1] == Comma && DerivesItems(items[1..], ts[2..]))
  }

  ghost predicate DerivesValue(op: Operator, v: Value, ts: seq<Token>) {
    match op
    case In =>
      && v.List? && |ts| >= 2 && ts[0] == LBracket && ts[|ts| - 1] == RBracket
      && DerivesItems(v.list, ts[1..|ts| - 1])
    case Between => v.Range? && ts == [Num(v.lo), AND, Num(v.hi)]
    case _ =>
      match v
      case Number(x) => ts == [Num(x)]
      case Quoted(w) => ts == [Str(w)]
      case Word(w) => ts == [Ident(w)]
      case _ => false
  }

  ghost predicate DerivesPredicate(e: Expr, ts: seq<Token>) {
    && e.Pred? && e.variable != UnknownVariable && e.op != NoOperator
    && |ts| >= 2
    && ts[0] == Ident(VariableName(e.variable))
    && ts[1] == OperatorToken(e.op)
    && DerivesValue(e.op, e.value, ts[2..])
  }

  // One predicate for each nonterminal. Both binary operators associate to the left: the left
  // operand is at the operator's own level, the right operand one level tighter.

  ghost predicate DerivesOr(e: Expr, ts: seq<Token>)
    decreases |ts|, 3
  {
    || DerivesAnd(e, ts)
    || (e.Or? && exists k :: (0 <= k < |ts| && ts[k] == OR
          && DerivesOr(e.left, ts[..k]) && DerivesAnd(e.right, ts[k + 1..])))
  }

  ghost predicate DerivesAnd(e: Expr, ts: seq<Token>)
    decreases |ts|, 2
  {
    || DerivesUnary(e, ts)
    || (e.And? && exists k :: (0 <= k < |ts| && ts[k] == AND
          && DerivesAnd(e.left, ts[..k]) && DerivesUnary(e.right, ts[k + 1..])))
  }

  ghost predicate DerivesUnary(e: Expr, ts: seq<Token>)
    decreases |ts|, 1
  {
    || DerivesPrimary(e, ts)
    || (e.Not? && ts != [] && ts[0] == NOT && DerivesUnary(e.arg, ts[1..]))
  }

  ghost predicate DerivesPrimary(e: Expr, ts: seq<Token>)
    decreases |ts|, 0
  {
    || DerivesPredicate(e, ts)
    || (|ts| >= 2 && ts[0] == LParen && ts[|ts| - 1] == RParen && DerivesOr(e, ts[1..|ts| - 1]))
  }

  lemma JoinAnd(left: Expr, right: Expr, a: seq<Token>, b: seq<Token>)
    requires DerivesAnd(left, a) && DerivesUnary(right, b)
    ensures DerivesAnd(And(left, right), a + ([AND] + b))
  {
    var ts := a + ([AND] + b);
    assert ts[..|a|] == a && ts[|a| + 1..] == b && ts[|a|] == AND;
  }

  lemma JoinOr(left: Expr, right: Expr, a: seq<Token>, b: seq<Token>)
    requires DerivesOr(left, a) && DerivesAnd(right, b)
    ensures DerivesOr(Or(left, right), a + ([OR] + b))
  {
    var ts := a + ([OR] + b);
    assert ts[..|a|] == a && ts[|a| + 1..] == b && ts[|a|] == OR;
  }

  lemma JoinNot(arg: Expr, b: seq<Token>)
    requires DerivesUnary(arg, b)
    ensures DerivesUnary(Not(arg), [NOT] + b)
  {
    assert ([NOT] + b)[1..] == b;
  }

  lemma JoinParens(e: Expr, inner: seq<Token>)
    requires DerivesOr(e, inner)
    ensures DerivesPrimary(e, [LParen] + inner + [RParen])
  {
    var ts := [LParen] + inner + [RParen];
    assert ts[1..|ts| - 1] == inner;
  }

  lemma SplitParens(e: Expr, ts: seq<Token>) returns (inner: seq<Token>)
    requires DerivesPrimary(e, ts) && !DerivesPredicate(e, ts)
    ensures ts == [LParen] + inner + [RParen] && DerivesOr(e, inner)
  {
    inner := ts[1..|ts| - 1];
  }

  lemma SplitNot(e: Expr, ts: seq<Token>) returns (operand: seq<Token>)
    requires DerivesUnary(e, ts) && !DerivesPrimary(e, ts)
    ensures e.Not? && ts == [NOT] + operand && DerivesUnary(e.arg, operand)
  {
    operand := ts[1..];
  }

  lemma SplitAnd(e: Expr, ts: seq<Token>) returns (a: seq<Token>, b: seq<Token>)
    requires DerivesAnd(e, ts) && !DerivesUnary(e, ts)
    ensures e.And? && ts == a + [AND] + b
    ensures DerivesAnd(e.left, a) && DerivesUnary(e.right, b)
  {
    var k :| 0 <= k < |ts| && ts[k] == AND
      && DerivesAnd(e.left, ts[..k]) && DerivesUnary(e.right, ts[k + 1..]);
    a, b := ts[..k], ts[k + 1..];
  }

  lemma SplitOr(e: Expr, ts: seq<Token>) returns (a: seq<Token>, b: seq<Token>)
    requires DerivesOr(e, ts) && !DerivesAnd(e, ts)
    ensures e.Or? && ts == a + [OR] + b
    ensures DerivesOr(e.left, a) && DerivesAnd(e.right, b)
  {
    var k :| 0 <= k < |ts| && ts[k] == OR
      && DerivesOr(e.left, ts[..k]) && DerivesAnd(e.right, ts[k + 1..]);
    a, b := ts[..k], ts[k + 1..];
  }

  /** The optional relock block; its number is truncated to whole units. */
  ghost predicate DerivesRelock(relock: Option<int>, ts: seq<Token>) {
    match relock
    case None => ts == []
    case Some(seconds) =>
      && |ts| == 4 && ts[0] == RELOCK_AFTER && ts[1] == Colon && ts[2].Num?
      && ((ts[3] == Ident("min") && seconds == ts[2].value.Floor * 60) ||
          (ts[3] == Ident("hour") && seconds == ts[2].value.Floor * 3600))
  }

  ghost predicate DerivesPolicyAt(p: Policy, ts: seq<Token>, k: nat)
    requires 2 <= k <= |ts|
  {
    && ts[0] == ALLOW_WHEN && ts[1] == Colon
    && DerivesOr(p.allow, ts[2..k])
    && DerivesRelock(p.relock, ts[k..])
  }

  /** A whole policy: allow_when, an expression, and the optional relock block, nothing else. */
  ghost predicate DerivesPolicy(p: Policy, ts: seq<Token>) {
    exists k :: 2 <= k <= |ts| && DerivesPolicyAt(p, ts, k)
  }
}
