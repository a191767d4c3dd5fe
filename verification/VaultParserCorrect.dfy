/** The VAULT parser accepts exactly the policy grammar and returns the tree it derives. */
module VaultParserCorrect {
  import opened Options
  import opened VaultAst
  import opened VaultLexer
  import opened VaultGrammar
  import opened VaultParser

  // ---- soundness: what is parsed is derived -----------------------------------------

  // Each lemma returns the tokens that the parser consumed.

  lemma {:induction false} ItemsSound(items: seq<string>, ts: seq<Token>, all: seq<string>, rest: seq<Token>)
    returns (more: seq<string>, used: seq<Token>)
    requires ParseItems(items, ts) == Some((all, rest))
    ensures all == items + more && ts == used + [RBracket] + rest
    ensures DerivesItems(more, used)
    decreases |ts|
  {
    if Peek(ts) == RBracket {
      more, used := [], [];
    } else if Peek(ts[1..]) == Comma {
      var first := ts[0].text;
      var more', used' := ItemsSound(items + [first], ts[2..], all, rest);
      more, used := [first] + more', ts[..2] + used';
      assert more[1..] == more' && used[2..] == used';
    } else {
      more, used := [ts[0].text], ts[..1];
    }
  }

  lemma ListSound(ts: seq<Token>, v: Value, rest: seq<Token>) returns (used: seq<Token>)
    requires ParseValue(In, ts) == Some((v, rest))
    ensures ts == used + rest && DerivesValue(In, v, used)
  {
    var items, inner := ItemsSound([], ts[1..], v.list, rest);
    used := [LBracket] + inner + [RBracket];
    assert used[1..|used| - 1] == inner && [] + items == items;
  }

  lemma RangeSound(ts: seq<Token>, v: Value, rest: seq<Token>) returns (used: seq<Token>)
    requires ParseValue(Between, ts) == Some((v, rest))
    ensures ts == used + rest && DerivesValue(Between, v, used)
  {
    used := ts[..3];
  }

  lemma ScalarSound(op: Operator, ts: seq<Token>, v: Value, rest: seq<Token>) returns (used: seq<Token>)
    requires op != In && op != Between && ParseScalar(ts) == Some((v, rest))
    ensures ts == used + rest && DerivesValue(op, v, used)
  {
    used := ts[..1];
  }

  lemma ValueSound(op: Operator, ts: seq<Token>, v: Value, rest: seq<Token>) returns (used: seq<Token>)
    requires ParseValue(op, ts) == Some((v, rest))
    ensures ts == used + rest && DerivesValue(op, v, used)
  {
    if op == In {
      used := ListSound(ts, v, rest);
    } else if op == Between {
      used := RangeSound(ts, v, rest);
    } else {
      used := ScalarSound(op, ts, v, rest);
    }
  }

  lemma PredicateSound(ts: seq<Token>, e: Expr, rest: seq<Token>) returns (used: seq<Token>)
    requires ParsePredicate(ts) == Some((e, rest))
    ensures ts == used + rest && DerivesPredicate(e, used)
  {
    var operand := ValueSound(e.op, ts[2..], e.value, rest);
    used := ts[..2] + operand;
    assert used[2..] == operand;
  }

  lemma {:induction false} PrimarySound(ts: seq<Token>, e: Expr, rest: seq<Token>) returns (used: seq<Token>)
    requires ParsePrimary(ts) == Some((e, rest))
    ensures ts == used + rest && DerivesPrimary(e, used)
    decreases |ts|, 0
  {
    if Peek(ts) == LParen {
      var after := ParseExpression(ts[1..]).value.1;
      var inner := ExpressionSound(ts[1..], e, after);
      used := [LParen] + inner + [RParen];
      JoinParens(e, inner);
    } else {
      used := PredicateSound(ts, e, rest);
    }
  }

  lemma {:induction false} UnarySound(ts: seq<Token>, e: Expr, rest: seq<Token>) returns (used: seq<Token>)
    requires ParseUnary(ts) == Some((e, rest))
    ensures ts == used + rest && DerivesUnary(e, used)
    decreases |ts|, 1
  {
    if Peek(ts) == NOT {
      var operand := UnarySound(ts[1..], e.arg, rest);
      used := [NOT] + operand;
      JoinNot(e.arg, operand);
    } else {
      used := PrimarySound(ts, e, rest);
    }
  }

  lemma AndUnfolds(left: Expr, ts: seq<Token>, e: Expr, rest: seq<Token>) returns (right: Expr, after: seq<Token>)
    requires Peek(ts) == AND && AndLoop(left, ts) == Some((e, rest))
    ensures ParseUnary(ts[1..]) == Some((right, after)) && |after| < |ts|
    ensures AndLoop(And(left, right), after) == Some((e, rest))
  {
    right, after := ParseUnary(ts[1..]).value.0, ParseUnary(ts[1..]).value.1;
  }

  lemma OrUnfolds(left: Expr, ts: seq<Token>, e: Expr, rest: seq<Token>) returns (right: Expr, after: seq<Token>)
    requires Peek(ts) == OR && OrLoop(left, ts) == Some((e, rest))
    ensures ParseAnd(ts[1..]) == Some((right, after)) && |after| < |ts|
    ensures OrLoop(Or(left, right), after) == Some((e, rest))
  {
    right, after := ParseAnd(ts[1..]).value.0, ParseAnd(ts[1..]).value.1;
  }

  lemma TurnJoins(ts: seq<Token>, t: Token, operand: seq<Token>, after: seq<Token>)
    requires Peek(ts) == t != Eof && ts[1..] == operand + after
    ensures ts == [t] + operand + after
  {
    assert ts == [t] + ts[1..];
  }

  /** One turn of the `and` loop; `left` was parsed from `before`. */
  lemma {:induction false} AndTurn(left: Expr, before: seq<Token>, ts: seq<Token>, e: Expr, rest: seq<Token>)
    returns (left': Expr, used: seq<Token>, after: seq<Token>)
    requires DerivesAnd(left, before) && Peek(ts) == AND && AndLoop(left, ts) == Some((e, rest))
    ensures ts == used + after && |after| < |ts|
    ensures DerivesAnd(left', before + used) && AndLoop(left', after) == Some((e, rest))
    decreases |ts|, 2
  {
    var right;
    right, after := AndUnfolds(left, ts, e, rest);
    var operand := UnarySound(ts[1..], right, after);
    JoinAnd(left, right, before, operand);
    TurnJoins(ts, AND, operand, after);
    left', used := And(left, right), [AND] + operand;
  }

  lemma {:induction false} AndLoopSound(left: Expr, before: seq<Token>, ts: seq<Token>, e: Expr, rest: seq<Token>)
    returns (used: seq<Token>)
    requires DerivesAnd(left, before) && AndLoop(left, ts) == Some((e, rest))
    ensures ts == used + rest && DerivesAnd(e, before + used)
    decreases |ts|, 3
  {
    if Peek(ts) == AND {
      var left', first, after := AndTurn(left, before, ts, e, rest);
      var more := AndLoopSound(left', before + first, after, e, rest);
      used := first + more;
      assert before + used == before + first + more;
    } else {
      used := [];
      assert before + used == before;
    }
  }

  /** A chain begins with its first operand. */
  lemma {:induction false} AndStart(ts: seq<Token>, e: Expr, rest: seq<Token>)
    returns (left: Expr, used: seq<Token>, after: seq<Token>)
    requires ParseAnd(ts) == Some((e, rest))
    ensures ts == used + after && |after| < |ts|
    ensures DerivesAnd(left, used) && AndLoop(left, after) == Some((e, rest))
    decreases |ts|, 2
  {
    left, after := ParseUnary(ts).value.0, ParseUnary(ts).value.1;
    used := UnarySound(ts, left, after);
  }

  lemma {:induction false} AndSound(ts: seq<Token>, e: Expr, rest: seq<Token>) returns (used: seq<Token>)
    requires ParseAnd(ts) == Some((e, rest))
    ensures ts == used + rest && DerivesAnd(e, used)
    decreases |ts|, 4
  {
    var left, first, after := AndStart(ts, e, rest);
    var more := AndLoopSound(left, first, after, e, rest);
    used := first + more;
  }

  /** One turn of the `or` loop; `left` was parsed from `before`. */
  lemma {:induction false} OrTurn(left: Expr, before: seq<Token>, ts: seq<Token>, e: Expr, rest: seq<Token>)
    returns (left': Expr, used: seq<Token>, after: seq<Token>)
    requires DerivesOr(left, before) && Peek(ts) == OR && OrLoop(left, ts) == Some((e, rest))
    ensures ts == used + after && |after| < |ts|
    ensures DerivesOr(left', before + used) && OrLoop(left', after) == Some((e, rest))
    decreases |ts|, 4
  {
    var right;
    right, after := OrUnfolds(left, ts, e, rest);
    var operand := AndSound(ts[1..], right, after);
    JoinOr(left, right, before, operand);
    TurnJoins(ts, OR, operand, after);
    left', used := Or(left, right), [OR] + operand;
  }

  lemma {:induction false} OrLoopSound(left: Expr, before: seq<Token>, ts: seq<Token>, e: Expr, rest: seq<Token>)
    returns (used: seq<Token>)
    requires DerivesOr(left, before) && OrLoop(left, ts) == Some((e, rest))
    ensures ts == used + rest && DerivesOr(e, before + used)
    decreases |ts|, 5
  {
    if Peek(ts) == OR {
      var left', first, after := OrTurn(left, before, ts, e, rest);
      var more := OrLoopSound(left', before + first, after, e, rest);
      used := first + more;
      assert before + used == before + first + more;
    } else {
      used := [];
      assert before + used == before;
    }
  }

  lemma {:induction false} ExpressionSound(ts: seq<Token>, e: Expr, rest: seq<Token>) returns (used: seq<Token>)
    requires ParseExpression(ts) == Some((e, rest))
    ensures ts == used + rest && DerivesOr(e, used)
    decreases |ts|, 6
  {
    var (left, after) := ParseAnd(ts).value;
    var first := AndSound(ts, left, after);
    var more := OrLoopSound(left, first, after, e, rest);
    used := first + more;
  }

  // ---- completeness: what is derived is parsed --------------------------------------

  lemma {:induction false} ItemsComplete(before: seq<string>, items: seq<string>, ts: seq<Token>, rest: seq<Token>)
    requires DerivesItems(items, ts)
    ensures ParseItems(before, ts + [RBracket] + rest) == Some((before + items, rest))
    decreases |ts|
  {
    var all := ts + [RBracket] + rest;
    if ts == [] {
      assert before + items == before && all[1..] == rest;
    } else if |ts| == 1 {
      assert before + items == before + [items[0]] && all[2..] == rest;
      assert all[1..][0] == RBracket;
    } else {
      ItemsComplete(before + [items[0]], items[1..], ts[2..], rest);
      assert all[2..] == ts[2..] + [RBracket] + rest && all[1..][0] == Comma;
      assert before + [items[0]] + items[1..] == before + items;
    }
  }

  lemma ValueComplete(op: Operator, v: Value, ts: seq<Token>, rest: seq<Token>)
    requires op != NoOperator && DerivesValue(op, v, ts)
    ensures ParseValue(op, ts + rest) == Some((v, rest))
  {
    var all := ts + rest;
    if op == In {
      var body := ts[1..|ts| - 1];
      ItemsComplete([], v.list, body, rest);
      assert all[1..] == body + [RBracket] + rest && [] + v.list == v.list;
    } else if op == Between {
      assert all[3..] == rest;
    } else {
      assert all[1..] == rest;
    }
  }

  /** The keyword tables of the grammar and of the parser are each other's inverse. */
  lemma NamesRoundTrip(variable: Variable, op: Operator)
    ensures variable != UnknownVariable ==> VariableKind(Ident(VariableName(variable))) == variable
    ensures variable != UnknownVariable ==> Ident(VariableName(variable)) != NOT
    ensures op != NoOperator ==> OperatorKind(OperatorToken(op)) == op
  {
  }

  lemma PredicateComplete(e: Expr, ts: seq<Token>, rest: seq<Token>)
    requires DerivesPredicate(e, ts)
    ensures ParsePredicate(ts + rest) == Some((e, rest)) && ts[0] != NOT && ts[0] != LParen
  {
    var all := ts + rest;
    NamesRoundTrip(e.variable, e.op);
    ValueComplete(e.op, e.value, ts[2..], rest);
    assert all[2..] == ts[2..] + rest && all[1..][0] == ts[1];
  }

  /** A primary or unary derivation is parsed whatever follows it. */
  lemma {:induction false} PrimaryComplete(e: Expr, ts: seq<Token>, rest: seq<Token>)
    requires DerivesPrimary(e, ts)
    ensures ParsePrimary(ts + rest) == Some((e, rest)) && Peek(ts + rest) != NOT
    decreases |ts|, 0
  {
    if DerivesPredicate(e, ts) {
      PredicateComplete(e, ts, rest);
    } else {
      var inner := ts[1..|ts| - 1];
      ExpressionComplete(e, inner, [RParen] + rest);
      assert (ts + rest)[1..] == inner + ([RParen] + rest);
      assert ([RParen] + rest)[1..] == rest;
    }
  }

  lemma {:induction false} UnaryComplete(e: Expr, ts: seq<Token>, rest: seq<Token>)
    requires DerivesUnary(e, ts)
    ensures ParseUnary(ts + rest) == Some((e, rest))
    decreases |ts|, 1
  {
    if DerivesPrimary(e, ts) {
      PrimaryComplete(e, ts, rest);
    } else {
      UnaryComplete(e.arg, ts[1..], rest);
      assert (ts + rest)[1..] == ts[1..] + rest;
    }
  }

  /** One turn of the `and` loop. */
  lemma {:induction false} AndStep(left: Expr, right: Expr, ts: seq<Token>, rest: seq<Token>)
    requires DerivesUnary(right, ts)
    ensures AndLoop(left, [AND] + ts + rest) == AndLoop(And(left, right), rest)
    decreases |ts|, 2
  {
    UnaryComplete(right, ts, rest);
    assert ([AND] + ts + rest)[1..] == ts + rest;
  }

  /** After an and_expr the parser is at the head of its `and` loop, whatever follows. */
  lemma {:induction false} AndComplete(e: Expr, ts: seq<Token>, rest: seq<Token>)
    requires DerivesAnd(e, ts)
    ensures ParseAnd(ts + rest) == AndLoop(e, rest)
    decreases |ts|, 3
  {
    if DerivesUnary(e, ts) {
      UnaryComplete(e, ts, rest);
    } else {
      var a, b := SplitAnd(e, ts);
      AndComplete(e.left, a, [AND] + b + rest);
      AndStep(e.left, e.right, b, rest);
      assert ts + rest == a + ([AND] + b + rest);
    }
  }

  /** One turn of the `or` loop. */
  lemma {:induction false} OrStep(left: Expr, right: Expr, ts: seq<Token>, rest: seq<Token>)
    requires DerivesAnd(right, ts) && Peek(rest) != AND
    ensures OrLoop(left, [OR] + ts + rest) == OrLoop(Or(left, right), rest)
    decreases |ts|, 4
  {
    AndComplete(right, ts, rest);
    assert ([OR] + ts + rest)[1..] == ts + rest;
  }

  lemma {:induction false} OrComplete(e: Expr, ts: seq<Token>, rest: seq<Token>)
    requires DerivesOr(e, ts) && Peek(rest) != AND
    ensures ParseExpression(ts + rest) == OrLoop(e, rest)
    decreases |ts|, 5
  {
    if DerivesAnd(e, ts) {
      AndComplete(e, ts, rest);
    } else {
      var a, b := SplitOr(e, ts);
      OrComplete(e.left, a, [OR] + b + rest);
      OrStep(e.left, e.right, b, rest);
      assert ts + rest == a + ([OR] + b + rest);
    }
  }

  lemma {:induction false} ExpressionComplete(e: Expr, ts: seq<Token>, rest: seq<Token>)
    requires DerivesOr(e, ts) && Peek(rest) != AND && Peek(rest) != OR
    ensures ParseExpression(ts + rest) == Some((e, rest))
    decreases |ts|, 6
  {
    OrComplete(e, ts, rest);
  }

  // ---- the grammar and the parser agree ---------------------------------------------

  lemma RelockAgrees(ts: seq<Token>, relock: Option<int>)
    ensures DerivesRelock(relock, ts) <==> ParseRelock(ts) == Some((relock, []))
  {
  }

  lemma PolicySound(ts: seq<Token>, p: Policy)
    requires ParsePolicy(ts) == Some(p)
    ensures DerivesPolicy(p, ts)
  {
    var rest := ParseExpression(ts[2..]).value.1;
    var used := ExpressionSound(ts[2..], p.allow, rest);
    var k := 2 + |used|;
    assert ts[2..k] == used && ts[k..] == rest;
    RelockAgrees(rest, p.relock);
    assert DerivesPolicyAt(p, ts, k);
  }

  lemma PolicyComplete(ts: seq<Token>, p: Policy)
    requires DerivesPolicy(p, ts)
    ensures ParsePolicy(ts) == Some(p)
  {
    var k :| 2 <= k <= |ts| && DerivesPolicyAt(p, ts, k);
    ExpressionComplete(p.allow, ts[2..k], ts[k..]);
    RelockAgrees(ts[k..], p.relock);
    assert ts[2..] == ts[2..k] + ts[k..] && ts[1..][0] == Colon;
  }

  /** The parser accepts exactly the policies of the grammar, and returns the tree that the
      grammar derives. */
  lemma ParsesTheGrammar(text: string, p: Policy)
    ensures Parse(text) == Some(p) <==> DerivesPolicy(p, Tokens(text))
  {
    if Parse(text) == Some(p) {
      PolicySound(Tokens(text), p);
    }
    if DerivesPolicy(p, Tokens(text)) {
      PolicyComplete(Tokens(text), p);
    }
  }

  /** No token sequence has two readings. */
  lemma GrammarIsUnambiguous(ts: seq<Token>, e: Expr, e': Expr)
    requires DerivesOr(e, ts) && DerivesOr(e', ts)
    ensures e == e'
  {
    ExpressionComplete(e, ts, []);
    ExpressionComplete(e', ts, []);
  }
}
