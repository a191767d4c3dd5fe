/** The VAULT recursive-descent parser: the parsing functions over token sequences and the parser
    object that computes them. */
module VaultParser {
  import opened Options
  import opened VaultAst
  import opened VaultLexer
  import opened VaultGrammar

  /** What a parsing function returns: a syntax tree part and the tokens after it. */
  type Parsed<T> = Option<(T, seq<Token>)>

  function Peek(ts: seq<Token>): Token {
    if ts == [] then Eof else ts[0]
  }

  function VariableKind(t: Token): Variable {
    match t
    case Ident("hour") => Hour
    case Ident("weekday") => Weekday
    case Ident("day_of_month") => DayOfMonth
    case Ident("seconds_since_boot") => SecondsSinceBoot
    case Ident("pulse_mode") => PulseMode
    case Ident("tether") => Tether
    case Ident("network_ssid") => NetworkSsid
    case Ident("oracle_score") => OracleScore
    case _ => UnknownVariable
  }

  function OperatorKind(t: Token): Operator {
    match t
    case EqEq => Eq
    case NotEq => Ne
    case Less => Lt
    case LessEq => Le
    case Greater => Gt
    case GreaterEq => Ge
    case Ident("in") => In
    case Ident("between") => Between
    case _ => NoOperator
  }

  predicate IsItem(t: Token) {
    t.Ident? || t.Str?
  }

  /** The list items from `ts` on, up to and over the closing bracket, after `items`. */
  function ParseItems(items: seq<string>, ts: seq<Token>): (r: Parsed<seq<string>>)
    ensures r.Some? ==> |r.value.1| < |ts|
    decreases |ts|
  {
    if Peek(ts) == RBracket then Some((items, ts[1..]))
    else if !IsItem(Peek(ts)) then None
    else
      var more := items + [ts[0].text];
      if Peek(ts[1..]) == Comma then ParseItems(more, ts[2..])
      else if Peek(ts[1..]) == RBracket then Some((more, ts[2..]))
      else None
  }

  function ParseScalar(ts: seq<Token>): (r: Parsed<Value>)
    ensures r.Some? ==> |r.value.1| < |ts|
  {
    match Peek(ts)
    case Num(x) => Some((Number(x), ts[1..]))
    case Str(w) => Some((Quoted(w), ts[1..]))
    case Ident(w) => Some((Word(w), ts[1..]))
    case _ => None
  }

  function ParseValue(op: Operator, ts: seq<Token>): (r: Parsed<Value>)
    ensures r.Some? ==> |r.value.1| < |ts|
  {
    if op == In then
      if Peek(ts) != LBracket then None
      else
        match ParseItems([], ts[1..])
        case None => None
        case Some((items, rest)) => Some((List(items), rest))
    else if op == Between then
      if Peek(ts).Num? && |ts| >= 3 && ts[1] == AND && ts[2].Num?
      then Some((Range(ts[0].value, ts[2].value), ts[3..])) else None
    else ParseScalar(ts)
  }

  function ParsePredicate(ts: seq<Token>): (r: Parsed<Expr>)
    ensures r.Some? ==> |r.value.1| < |ts|
  {
    var variable := VariableKind(Peek(ts));
    if variable == UnknownVariable then None
    else
      var op := OperatorKind(Peek(ts[1..]));
      if op == NoOperator then None
      else
        match ParseValue(op, ts[2..])
        case None => None
        case Some((value, rest)) => Some((Pred(variable, op, value), rest))
  }

  function ParsePrimary(ts: seq<Token>): (r: Parsed<Expr>)
    ensures r.Some? ==> |r.value.1| < |ts|
    decreases |ts|, 0
  {
    if Peek(ts) == LParen then
      match ParseExpression(ts[1..])
      case None => None
      case Some((inner, rest)) => if Peek(rest) == RParen then Some((inner, rest[1..])) else None
    else ParsePredicate(ts)
  }

  function ParseUnary(ts: seq<Token>): (r: Parsed<Expr>)
    ensures r.Some? ==> |r.value.1| < |ts|
    decreases |ts|, 1
  {
    if Peek(ts) == NOT then
      match ParseUnary(ts[1..])
      case None => None
      case Some((operand, rest)) => Some((Not(operand), rest))
    else ParsePrimary(ts)
  }

  /** The `and` loop, with `left` parsed so far. */
  function AndLoop(left: Expr, ts: seq<Token>): (r: Parsed<Expr>)
    ensures r.Some? ==> |r.value.1| <= |ts|
    decreases |ts|, 2
  {
    if Peek(ts) == AND then
      match ParseUnary(ts[1..])
      case None => None
      case Some((right, rest)) => AndLoop(And(left, right), rest)
    else Some((left, ts))
  }

  function ParseAnd(ts: seq<Token>): (r: Parsed<Expr>)
    ensures r.Some? ==> |r.value.1| < |ts|
    decreases |ts|, 3
  {
    match ParseUnary(ts)
    case None => None
    case Some((left, rest)) => AndLoop(left, rest)
  }

  /** The `or` loop, with `left` parsed so far. */
  function OrLoop(left: Expr, ts: seq<Token>): (r: Parsed<Expr>)
    ensures r.Some? ==> |r.value.1| <= |ts|
    decreases |ts|, 4
  {
    if Peek(ts) == OR then
      match ParseAnd(ts[1..])
      case None => None
      case Some((right, rest)) => OrLoop(Or(left, right), rest)
    else Some((left, ts))
  }

  function ParseExpression(ts: seq<Token>): (r: Parsed<Expr>)
    ensures r.Some? ==> |r.value.1| < |ts|
    decreases |ts|, 5
  {
    match ParseAnd(ts)
    case None => None
    case Some((left, rest)) => OrLoop(left, rest)
  }

  function UnitSeconds(t: Token): Option<int> {
    if t == Ident("min") then Some(60) else if t == Ident("hour") then Some(3600) else None
  }

  /** A number truncated to whole units, and its unit. */
  function ParseDuration(ts: seq<Token>): (r: Parsed<int>)
    ensures r.Some? ==> |r.value.1| < |ts|
  {
    if !Peek(ts).Num? then None
    else
      match UnitSeconds(Peek(ts[1..]))
      case None => None
      case Some(unit) => Some((ts[0].value.Floor * unit, ts[2..]))
  }

  /** The optional relock block: its duration in seconds, absent or present. */
  function ParseRelock(ts: seq<Token>): Parsed<Option<int>> {
    if Peek(ts) != RELOCK_AFTER then Some((None, ts))
    else if Peek(ts[1..]) != Colon then None
    else
      match ParseDuration(ts[2..])
      case None => None
      case Some((seconds, rest)) => Some((Some(seconds), rest))
  }

  /** A policy after its `allow_when :`; trailing tokens are an error. */
  function ParseBodyOf(ts: seq<Token>): Option<Policy> {
    match ParseExpression(ts)
    case None => None
    case Some((allow, rest)) =>
      match ParseRelock(rest)
      case None => None
      case Some((relock, trailing)) => if trailing == [] then Some(Policy(allow, relock)) else None
  }

  function ParsePolicy(ts: seq<Token>): Option<Policy> {
    if Peek(ts) == ALLOW_WHEN && Peek(ts[1..]) == Colon then ParseBodyOf(ts[2..]) else None
  }

  /** vault_parse on a policy text. */
  function Parse(text: string): Option<Policy> {
    ParsePolicy(Tokens(text))
  }

  // ---- the parser object ------------------------------------------------------------

  class Parser {
    const lx: Lexer
    var tok: Token
    var failed: bool

    /** A lexical error is always recorded, and no other failure has happened. */
    ghost predicate Fine()
      reads this, lx
    {
      lx.Valid() && (failed <==> tok == Error)
    }

    /** The tokens still to be parsed, the lookahead first. */
    ghost function Rest(): seq<Token>
      reads this, lx
      requires lx.Valid()
    {
      if tok == Eof then [] else [tok] + Tokens(lx.Rest())
    }

    constructor (text: string)
      ensures Fine() && Rest() == Tokens(text) && fresh(lx)
    {
      lx := new Lexer(text);
      failed := false;
      new;
      assert lx.Rest() == text;
      tok := lx.NextToken();
      if tok == Error {
        failed := true;
      }
    }

    /** What every parsing method does: on success it returns what the parsing function does and
        has moved over the tokens used, on failure the parsing function fails too. */
    ghost predicate Parses<T>(expected: Parsed<T>, r: Option<T>)
      reads this, lx
    {
      && lx.Valid()
      && match r
         case Some(v) => expected == Some((v, Rest())) && Fine()
         case None => expected == None && failed
    }

    method Advance()
      requires Fine() && tok != Eof && tok != Error
      modifies this, lx
      ensures Fine() && Rest() == old(Rest())[1..]
    {
      tok := lx.NextToken();
      if tok == Error {
        failed := true;
      }
    }

    method Fail<T>() returns (r: Option<T>)
      modifies this
      ensures r == None && failed && tok == old(tok)
    {
      failed := true;
      r := None;
    }

    /** The `in` case of ParseValue. */
    method ParseListValue() returns (r: Option<Value>)
      requires Fine()
      modifies this, lx
      ensures Parses(ParseValue(In, old(Rest())), r)
    {
      if tok != LBracket {
        r := Fail();
        return;
      }
      ghost var all := Rest()[1..];
      Advance();
      var items := [];
      while tok != RBracket
        invariant Fine() && |Rest()| <= |all|
        invariant ParseItems(items, Rest()) == ParseItems([], all)
        decreases |Rest()|
      {
        if !IsItem(tok) {
          r := Fail();
          return;
        }
        items := items + [tok.text];
        Advance();
        if tok == Comma {
          Advance();
        } else if tok != RBracket {
          r := Fail();
          return;
        }
      }
      Advance();
      r := Some(List(items));
    }

    method ParseValueOf(op: Operator) returns (r: Option<Value>)
      requires Fine()
      modifies this, lx
      ensures Parses(ParseValue(op, old(Rest())), r)
    {
      if op == In {
        r := ParseListValue();
        return;
      }
      if op == Between {
        r := ParseRangeValue();
        return;
      }
      r := ParseScalarValue();
    }

    /** The `between` case of ParseValue. */
    method ParseRangeValue() returns (r: Option<Value>)
      requires Fine()
      modifies this, lx
      ensures Parses(ParseValue(Between, old(Rest())), r)
    {
      ghost var all := Rest();
      if !tok.Num? {
        r := Fail();
        return;
      }
      var lo := tok.value;
      Advance();
      if tok != AND {
        r := Fail();
        return;
      }
      Advance();
      assert Rest() == all[2..];
      if !tok.Num? {
        r := Fail();
        return;
      }
      var hi := tok.value;
      Advance();
      assert Rest() == all[3..];
      r := Some(Range(lo, hi));
    }

    /** The remaining cases of ParseValue. */
    method ParseScalarValue() returns (r: Option<Value>)
      requires Fine()
      modifies this, lx
      ensures Parses(ParseScalar(old(Rest())), r)
    {
      match tok {
        case Num(x) =>
          Advance();
          r := Some(Number(x));
        case Str(w) =>
          Advance();
          r := Some(Quoted(w));
        case Ident(w) =>
          Advance();
          r := Some(Word(w));
        case _ =>
          r := Fail();
      }
    }

    method ParsePredicateNode() returns (r: Option<Expr>)
      requires Fine()
      modifies this, lx
      ensures Parses(ParsePredicate(old(Rest())), r)
    {
      var variable := VariableKind(tok);
      if variable == UnknownVariable {
        r := Fail();
        return;
      }
      Advance();
      var op := OperatorKind(tok);
      if op == NoOperator {
        r := Fail();
        return;
      }
      Advance();
      var value := ParseValueOf(op);
      if value == None {
        return None;
      }
      r := Some(Pred(variable, op, value.value));
    }

    method ParsePrimaryNode() returns (r: Option<Expr>)
      requires Fine()
      modifies this, lx
      ensures Parses(ParsePrimary(old(Rest())), r)
      decreases |Rest()|, 0
    {
      if tok == LParen {
        Advance();
        var inner := ParseExpressionNode();
        if inner == None {
          return None;
        }
        if tok != RParen {
          r := Fail();
          return;
        }
        Advance();
        return inner;
      }
      r := ParsePredicateNode();
    }

    method ParseUnaryNode() returns (r: Option<Expr>)
      requires Fine()
      modifies this, lx
      ensures Parses(ParseUnary(old(Rest())), r)
      decreases |Rest()|, 1
    {
      if tok == NOT {
        Advance();
        var operand := ParseUnaryNode();
        if operand == None {
          return None;
        }
        return Some(Not(operand.value));
      }
      r := ParsePrimaryNode();
    }

    method ParseAndNode() returns (r: Option<Expr>)
      requires Fine()
      modifies this, lx
      ensures Parses(ParseAnd(old(Rest())), r)
      decreases |Rest()|, 2
    {
      ghost var all := Rest();
      var first := ParseUnaryNode();
      if first == None {
        return None;
      }
      var left := first.value;
      while tok == AND
        invariant Fine() && |Rest()| < |all|
        invariant AndLoop(left, Rest()) == ParseAnd(all)
        decreases |Rest()|
      {
        Advance();
        var right := ParseUnaryNode();
        if right == None {
          return None;
        }
        left := And(left, right.value);
      }
      r := Some(left);
    }

    method ParseExpressionNode() returns (r: Option<Expr>)
      requires Fine()
      modifies this, lx
      ensures Parses(ParseExpression(old(Rest())), r)
      decreases |Rest()|, 3
    {
      ghost var all := Rest();
      var first := ParseAndNode();
      if first == None {
        return None;
      }
      var left := first.value;
      while tok == OR
        invariant Fine() && |Rest()| < |all|
        invariant OrLoop(left, Rest()) == ParseExpression(all)
        decreases |Rest()|
      {
        Advance();
        var right := ParseAndNode();
        if right == None {
          return None;
        }
        left := Or(left, right.value);
      }
      r := Some(left);
    }

    /** `Some(None)` when there is no relock block, None when it is malformed. */
    method ParseRelockBlock() returns (r: Option<Option<int>>)
      requires Fine()
      modifies this, lx
      ensures Parses(ParseRelock(old(Rest())), r)
    {
      if tok != RELOCK_AFTER {
        return Some(None);
      }
      Advance();
      if tok != Colon {
        r := Fail();
        return;
      }
      Advance();
      var seconds := ParseDurationOf();
      if seconds == None {
        return None;
      }
      r := Some(seconds);
    }

    /** The number and the unit of a relock block. */
    method ParseDurationOf() returns (r: Option<int>)
      requires Fine()
      modifies this, lx
      ensures Parses(ParseDuration(old(Rest())), r)
    {
      if !tok.Num? {
        r := Fail();
        return;
      }
      var n := tok.value.Floor;
      Advance();
      var unit := UnitSeconds(tok);
      if unit == None {
        r := Fail();
        return;
      }
      Advance();
      r := Some(n * unit.value);
    }

    /** The rest of vault_parse, after `allow_when :`. */
    method ParseBody() returns (r: Option<Policy>)
      requires Fine()
      modifies this, lx
      ensures r == ParseBodyOf(old(Rest()))
    {
      var allow := ParseExpressionNode();
      if allow == None || failed {
        return None;
      }
      var relock := ParseRelockBlock();
      if relock == None {
        return None;
      }
      if tok != Eof {
        return None; // trailing tokens
      }
      r := Some(Policy(allow.value, relock.value));
    }
  }

  /** vault_parse: the policy that a text denotes, or None on any syntax error. */
  method ParseText(text: string) returns (r: Option<Policy>)
    ensures r == Parse(text)
  {
    var p := new Parser(text);
    if p.tok != ALLOW_WHEN {
      return None;
    }
    p.Advance();
    if p.tok != Colon {
      return None;
    }
    p.Advance();
    r := p.ParseBody();
  }
}
