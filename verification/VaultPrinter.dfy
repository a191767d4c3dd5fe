/** Policies printed back as text, and the round trip through the lexer and the parser. */
module VaultPrinter {
  import opened Options
  import opened VaultAst
  import opened VaultLexer
  import opened VaultGrammar
  import opened VaultParser
  import opened VaultParserCorrect

  // ---- what the parser can build ----------------------------------------------------

  ghost predicate IsLiteral(whole: string, frac: string) {
    whole != "" && AllDigits(whole) && AllDigits(frac)
  }

  /** The numbers that some literal denotes: the terminating decimals. */
  ghost predicate IsDecimal(x: real) {
    exists whole, frac :: IsLiteral(whole, frac) && Decimal(whole, frac) == x
  }

  predicate IsIdentifier(s: string) {
    s != "" && IsIdentStart(s[0]) && forall i :: 0 <= i < |s| ==> IsIdentCont(s[i])
  }

  predicate IsStringText(s: string) {
    forall i :: 0 <= i < |s| ==> IsStringBody(s[i])
  }

  /** A token that has a text. */
  ghost predicate IsPrintable(t: Token) {
    match t
    case Ident(s) => IsIdentifier(s)
    case Num(x) => IsDecimal(x)
    case Str(s) => IsStringText(s)
    case Eof => false
    case Error => false
    case _ => true
  }

  ghost predicate IsBuildableValue(op: Operator, v: Value) {
    match op
    case In => v.List? && forall i :: 0 <= i < |v.list| ==> IsStringText(v.list[i])
    case Between => v.Range? && IsDecimal(v.lo) && IsDecimal(v.hi)
    case _ =>
      match v
      case Number(x) => IsDecimal(x)
      case Quoted(w) => IsStringText(w)
      case Word(w) => IsIdentifier(w)
      case _ => false
  }

  ghost predicate IsBuildableExpr(e: Expr) {
    match e
    case Pred(variable, op, value) =>
      variable != UnknownVariable && op != NoOperator && IsBuildableValue(op, value)
    case Not(arg) => IsBuildableExpr(arg)
    case And(left, right) => IsBuildableExpr(left) && IsBuildableExpr(right)
    case Or(left, right) => IsBuildableExpr(left) && IsBuildableExpr(right)
  }

  /** The policies of the grammar: the relock duration, if any, is a whole number of minutes. */
  ghost predicate IsBuildable(p: Policy) {
    && IsBuildableExpr(p.allow)
    && (p.relock.Some? ==> p.relock.value >= 0 && p.relock.value % 60 == 0)
  }

  // ---- printing to tokens -----------------------------------------------------------

  function PrintItems(items: seq<string>): seq<Token> {
    if items == [] then []
    else if |items| == 1 then [Str(items[0])]
    else [Str(items[0]), Comma] + PrintItems(items[1..])
  }

  function PrintValue(v: Value): seq<Token> {
    match v
    case Number(x) => [Num(x)]
    case Word(w) => [Ident(w)]
    case Quoted(w) => [Str(w)]
    case List(items) => [LBracket] + PrintItems(items) + [RBracket]
    case Range(lo, hi) => [Num(lo), AND, Num(hi)]
  }

  function Precedence(e: Expr): nat {
    match e
    case Or(_, _) => 0
    case And(_, _) => 1
    case Not(_) => 2
    case Pred(_, _, _) => 3
  }

  /** `e` as an operand that must bind at least as tightly as `level`, parenthesized only if it
      does not. */
  function Print(e: Expr, level: nat): seq<Token>
    requires IsBuildableExpr(e)
    decreases e, level
  {
    if Precedence(e) < level then [LParen] + Print(e, 0) + [RParen]
    else
      match e
      case Or(left, right) => Print(left, 0) + ([OR] + Print(right, 1))
      case And(left, right) => Print(left, 1) + ([AND] + Print(right, 2))
      case Not(arg) => [NOT] + Print(arg, 2)
      case Pred(variable, op, value) => [Ident(VariableName(variable)), OperatorToken(op)] + PrintValue(value)
  }

  function PrintRelock(relock: Option<int>): seq<Token> {
    match relock
    case None => []
    case Some(seconds) => [RELOCK_AFTER, Colon, Num((seconds / 60) as real), Ident("min")]
  }

  function PrintPolicy(p: Policy): seq<Token>
    requires IsBuildable(p)
  {
    [ALLOW_WHEN, Colon] + Print(p.allow, 0) + PrintRelock(p.relock)
  }

  // ---- printed tokens derive the tree -----------------------------------------------

  ghost predicate DerivesAt(e: Expr, level: nat, ts: seq<Token>) {
    match level
    case 0 => DerivesOr(e, ts)
    case 1 => DerivesAnd(e, ts)
    case 2 => DerivesUnary(e, ts)
    case _ => DerivesPrimary(e, ts)
  }

  lemma {:induction false} ItemsDerive(items: seq<string>)
    ensures DerivesItems(items, PrintItems(items))
  {
    if |items| > 1 {
      ItemsDerive(items[1..]);
      assert PrintItems(items)[2..] == PrintItems(items[1..]);
    }
  }

  lemma PredicateDerives(e: Expr)
    requires IsBuildableExpr(e) && e.Pred?
    ensures DerivesPredicate(e, Print(e, 3))
  {
    var ts := PrintValue(e.value);
    assert Print(e, 3)[2..] == ts;
    if e.value.List? {
      ItemsDerive(e.value.list);
      assert ts[1..|ts| - 1] == PrintItems(e.value.list);
    }
  }

  /** Looser levels include tighter ones. */
  lemma DerivesLooser(e: Expr, level: nat, looser: nat, ts: seq<Token>)
    requires looser <= level <= 3 && DerivesAt(e, level, ts)
    ensures DerivesAt(e, looser, ts)
    decreases level
  {
    if looser < level {
      assert DerivesAt(e, level - 1, ts);
      DerivesLooser(e, level - 1, looser, ts);
    }
  }

  lemma {:induction false} PrintDerives(e: Expr, level: nat)
    requires IsBuildableExpr(e) && level <= 3
    ensures DerivesAt(e, level, Print(e, level))
    decreases e, level
  {
    if Precedence(e) < level {
      PrintDerives(e, 0);
      JoinParens(e, Print(e, 0));
      DerivesLooser(e, 3, level, Print(e, level));
    } else {
      match e {
        case Or(left, right) =>
          PrintDerives(left, 0);
          PrintDerives(right, 1);
          JoinOr(left, right, Print(left, 0), Print(right, 1));
        case And(left, right) =>
          PrintDerives(left, 1);
          PrintDerives(right, 2);
          JoinAnd(left, right, Print(left, 1), Print(right, 2));
        case Not(arg) =>
          PrintDerives(arg, 2);
          JoinNot(arg, Print(arg, 2));
        case Pred(_, _, _) =>
          PredicateDerives(e);
      }
      DerivesLooser(e, Precedence(e), level, Print(e, level));
    }
  }

  lemma PolicyDerives(p: Policy)
    requires IsBuildable(p)
    ensures DerivesPolicy(p, PrintPolicy(p))
  {
    var ts, body := PrintPolicy(p), Print(p.allow, 0);
    PrintDerives(p.allow, 0);
    var k := 2 + |body|;
    assert ts[2..k] == body && ts[k..] == PrintRelock(p.relock);
    assert DerivesPolicyAt(p, ts, k);
  }

  // ---- printing is minimal ----------------------------------------------------------

  ghost function Parentheses(ts: seq<Token>): nat {
    multiset(ts)[LParen]
  }

  lemma JoinCount(a: seq<Token>, t: Token, b: seq<Token>)
    ensures Parentheses(a + ([t] + b)) == Parentheses(a) + Parentheses(b) + (if t == LParen then 1 else 0)
  {
  }

  lemma NotCount(ts: seq<Token>)
    ensures Parentheses([NOT] + ts) == Parentheses(ts)
  {
  }

  lemma WrapCount(ts: seq<Token>)
    ensures Parentheses([LParen] + ts + [RParen]) == Parentheses(ts) + 1
  {
  }

  lemma {:induction false} ItemsHaveNoParentheses(items: seq<string>)
    ensures Parentheses(PrintItems(items)) == 0
  {
    if |items| > 1 {
      ItemsHaveNoParentheses(items[1..]);
    }
  }

  lemma ValuesHaveNoParentheses(v: Value)
    ensures Parentheses(PrintValue(v)) == 0
  {
    if v.List? {
      ItemsHaveNoParentheses(v.list);
      var inner := PrintItems(v.list);
      assert multiset([LBracket] + inner + [RBracket])[LParen] == multiset(inner)[LParen];
    }
  }

  lemma OperatorIsNoParenthesis(op: Operator)
    requires op != NoOperator
    ensures OperatorToken(op) != LParen
  {
  }

  lemma PredicatesHaveNoParentheses(e: Expr, level: nat)
    requires IsBuildableExpr(e) && e.Pred? && level <= 3
    ensures Parentheses(Print(e, level)) == 0
  {
    var ts := PrintValue(e.value);
    ValuesHaveNoParentheses(e.value);
    OperatorIsNoParenthesis(e.op);
    var name := Ident(VariableName(e.variable));
    assert multiset([name, OperatorToken(e.op)] + ts) == multiset{name, OperatorToken(e.op)} + multiset(ts);
  }

  /** Asking for a tighter level costs at most the one pair of parentheses around the tree. */
  lemma PrintCost(e: Expr, level: nat)
    requires IsBuildableExpr(e) && level <= 3
    ensures Parentheses(Print(e, level)) <= Parentheses(Print(e, 0)) + 1
    ensures level <= Precedence(e) ==> Print(e, level) == Print(e, 0)
  {
    if Precedence(e) < level {
      WrapCount(Print(e, 0));
    }
  }

  lemma JoinIsMinimal(a: seq<Token>, a': seq<Token>, t: Token, b: seq<Token>, b': seq<Token>)
    requires Parentheses(a) <= Parentheses(a') && Parentheses(b) <= Parentheses(b')
    ensures Parentheses(a + ([t] + b)) <= Parentheses(a' + [t] + b')
  {
    JoinCount(a, t, b);
    JoinCount(a', t, b');
    assert a' + [t] + b' == a' + ([t] + b');
  }

  /** No text of the same tree has fewer parentheses than the printed one. */
  lemma {:induction false} PrintIsMinimal(e: Expr, level: nat, ts: seq<Token>)
    requires IsBuildableExpr(e) && level <= 3 && DerivesAt(e, level, ts)
    ensures Parentheses(Print(e, level)) <= Parentheses(ts)
    decreases |ts|, 4 - level
  {
    if level < 3 && DerivesAt(e, level + 1, ts) {
      PrintIsMinimal(e, level + 1, ts);
      PrintAtLooserLevel(e, level);
    } else {
      match level {
        case 0 =>
          var a, b := SplitOr(e, ts);
          PrintIsMinimal(e.left, 0, a);
          PrintIsMinimal(e.right, 1, b);
          JoinIsMinimal(Print(e.left, 0), a, OR, Print(e.right, 1), b);
        case 1 =>
          var a, b := SplitAnd(e, ts);
          PrintIsMinimal(e.left, 1, a);
          PrintIsMinimal(e.right, 2, b);
          JoinIsMinimal(Print(e.left, 1), a, AND, Print(e.right, 2), b);
        case 2 =>
          var operand := SplitNot(e, ts);
          PrintIsMinimal(e.arg, 2, operand);
          NotCount(operand);
          NotCount(Print(e.arg, 2));
        case _ =>
          PrimaryIsMinimal(e, ts);
      }
    }
  }

  lemma {:induction false} PrimaryIsMinimal(e: Expr, ts: seq<Token>)
    requires IsBuildableExpr(e) && DerivesPrimary(e, ts)
    ensures Parentheses(Print(e, 3)) <= Parentheses(ts)
    decreases |ts|, 0
  {
    if DerivesPredicate(e, ts) {
      PredicatesHaveNoParentheses(e, 3);
    } else {
      var inner := SplitParens(e, ts);
      PrintIsMinimal(e, 0, inner);
      PrintCost(e, 3);
      WrapCount(inner);
    }
  }

  lemma PrintAtLooserLevel(e: Expr, level: nat)
    requires IsBuildableExpr(e) && level < 3
    ensures Parentheses(Print(e, level)) <= Parentheses(Print(e, level + 1))
  {
    if Precedence(e) < level + 1 {
      WrapCount(Print(e, 0));
    }
  }

  // ---- printing to text -------------------------------------------------------------

  /** The digits of some literal that denotes `x`. */
  ghost function LiteralOf(x: real): (r: (string, string))
    requires IsDecimal(x)
    ensures IsLiteral(r.0, r.1) && Decimal(r.0, r.1) == x
  {
    var whole, frac :| IsLiteral(whole, frac) && Decimal(whole, frac) == x;
    (whole, frac)
  }

  ghost function LiteralText(x: real): string
    requires IsDecimal(x)
  {
    var (whole, frac) := LiteralOf(x);
    Literal(whole, frac, frac != "")
  }

  function SymbolText(t: Token): string {
    match t
    case Colon => ":"
    case LParen => "("
    case RParen => ")"
    case LBracket => "["
    case RBracket => "]"
    case Comma => ","
    case EqEq => "=="
    case NotEq => "!="
    case Less => "<"
    case LessEq => "<="
    case Greater => ">"
    case GreaterEq => ">="
    case _ => ""
  }

  ghost function TokenText(t: Token): string
    requires IsPrintable(t)
  {
    match t
    case Ident(s) => s
    case Num(x) => LiteralText(x)
    case Str(s) => ['"'] + s + ['"']
    case _ => SymbolText(t)
  }

  ghost predicate AllPrintable(ts: seq<Token>) {
    forall i :: 0 <= i < |ts| ==> IsPrintable(ts[i])
  }

  /** Every token followed by one space. */
  ghost function Render(ts: seq<Token>): string
    requires AllPrintable(ts)
  {
    if ts == [] then "" else TokenText(ts[0]) + ([' '] + Render(ts[1..]))
  }

  lemma ScanIdentifier(s: string, rest: string)
    requires IsIdentifier(s) && Head(rest) == ' '
    ensures Scan(s + rest) == (Ident(s), rest)
  {
    SpanOf(s, rest, IsIdentCont);
  }

  lemma ScanLiteralText(whole: string, frac: string, rest: string)
    requires IsLiteral(whole, frac) && Head(rest) == ' '
    ensures ScanNumber(Literal(whole, frac, frac != "") + rest) == (Num(Decimal(whole, frac)), rest)
  {
    if frac == "" {
      ScanInteger(whole, rest);
    } else {
      ScanPointed(whole, frac, rest);
      PointedText(whole, frac, rest);
    }
  }

  lemma PointedText(whole: string, frac: string, rest: string)
    ensures whole + ['.'] + frac + rest == whole + (['.'] + (frac + rest))
  {
  }

  lemma ScanNumberText(x: real, rest: string)
    requires IsDecimal(x) && Head(rest) == ' '
    ensures Scan(LiteralText(x) + rest) == (Num(x), rest) && !IsSpace(Head(LiteralText(x)))
  {
    var (whole, frac) := LiteralOf(x);
    assert LiteralText(x)[0] == whole[0];
    ScanLiteralText(whole, frac, rest);
  }

  lemma ScanQuoted(s: string, rest: string)
    requires IsStringText(s)
    ensures Scan(['"'] + s + ['"'] + rest) == (Str(s), rest)
  {
    var tail := ['"'] + rest;
    SpanOf(s, tail, IsStringBody);
    var all := ['"'] + s + ['"'] + rest;
    assert all[1..] == s + tail;
    assert (s + tail)[|s| + 1..] == rest;
  }

  lemma ScanSymbolText(t: Token, rest: string)
    requires SymbolText(t) != "" && Head(rest) == ' '
    ensures Scan(SymbolText(t) + rest) == (t, rest)
    ensures !IsSpace(Head(SymbolText(t)))
  {
    var s := SymbolText(t) + rest;
    assert |SymbolText(t)| == 1 ==> s[1..] == rest;
    assert |SymbolText(t)| == 2 ==> s[2..] == rest;
  }

  /** A token's text is scanned back as that token. */
  lemma ScanText(t: Token, rest: string)
    requires IsPrintable(t) && Head(rest) == ' '
    ensures Scan(TokenText(t) + rest) == (t, rest)
    ensures !IsSpace(Head(TokenText(t)))
  {
    if t.Ident? {
      ScanIdentifier(t.text, rest);
    } else if t.Num? {
      ScanNumberText(t.value, rest);
    } else if t.Str? {
      ScanQuoted(t.text, rest);
    } else {
      ScanSymbolText(t, rest);
    }
  }

  lemma SkipSpace(s: string)
    ensures Next([' '] + s) == Next(s)
  {
    var n := Span(s, IsSpace);
    SpanIs([' '] + s, IsSpace, n + 1);
    assert ([' '] + s)[n + 1..] == s[n..];
  }

  lemma TokensSkip(s: string)
    ensures Tokens([' '] + s) == Tokens(s)
  {
    SkipSpace(s);
  }

  lemma TextIsNotEmpty(t: Token)
    requires IsPrintable(t)
    ensures TokenText(t) != ""
  {
  }

  lemma TokensStep(t: Token, rest: string)
    requires IsPrintable(t) && Head(rest) == ' '
    ensures Tokens(TokenText(t) + rest) == [t] + Tokens(rest)
  {
    var text := TokenText(t) + rest;
    ScanText(t, rest);
    TextIsNotEmpty(t);
    assert text[0] == TokenText(t)[0];
    SpanIs(text, IsSpace, 0);
    assert text[0..] == text;
    assert Next(text) == (t, rest);
  }

  /** Printed text is read back as the tokens that were printed. */
  lemma {:induction false} TokensOfRender(ts: seq<Token>)
    requires AllPrintable(ts)
    ensures Tokens(Render(ts)) == ts
  {
    if ts == [] {
      assert Next("").0 == Eof;
    } else {
      var more := Render(ts[1..]);
      assert Tokens([' '] + more) == ts[1..] by {
        TokensSkip(more);
        TokensOfRender(ts[1..]);
      }
      assert Tokens(TokenText(ts[0]) + ([' '] + more)) == [ts[0]] + ts[1..] by {
        TokensStep(ts[0], [' '] + more);
      }
    }
  }

  // ---- terminating decimals ---------------------------------------------------------

  function Digit(d: nat): (c: char)
    requires d < 10
    ensures IsDigit(c) && DigitValue(c) == d
  {
    '0' + d as char
  }

  /** The last `width` decimal digits of `n`. */
  function Digits(n: nat, width: nat): (s: string)
    ensures |s| == width && AllDigits(s)
  {
    if width == 0 then "" else Digits(n / 10, width - 1) + [Digit(n % 10)]
  }

  lemma {:induction false} DigitsDenote(n: nat, width: nat)
    ensures DigitsValue(Digits(n, width)) == n % Pow10(width)
  {
    if width > 0 {
      DigitsDenote(n / 10, width - 1);
      DigitsValueSnoc(Digits(n / 10, width - 1), Digit(n % 10));
      var p := Pow10(width - 1);
      DivMod(n, p);
    }
  }

  lemma DivMod(n: nat, p: nat)
    requires p >= 1
    ensures n % (10 * p) == 10 * (n / 10 % p) + n % 10
  {
    var q, r := n / 10 / p, n / 10 % p;
    assert n / 10 == p * q + r;
    assert n == (10 * p) * q + (10 * r + n % 10);
    ModIs(n, 10 * p, q, 10 * r + n % 10);
  }

  lemma {:induction false} AtLeast(m: nat, d: nat)
    requires d >= 1
    ensures m * d >= m
  {
    if d > 1 {
      AtLeast(m, d - 1);
      assert m * d == m * (d - 1) + m;
    }
  }

  /** Quotient and remainder are unique. */
  lemma ModIs(n: nat, m: nat, q: nat, r: nat)
    requires r < m && n == m * q + r
    ensures n % m == r && n / m == q
  {
    var q', r' := n / m, n % m;
    assert n == m * q' + r';
    if q' != q {
      AtLeast(m, if q' > q then q' - q else q - q');
      assert false;
    }
  }

  lemma {:induction false} Pow10Exceeds(n: nat)
    ensures n < Pow10(n)
  {
    if n > 0 {
      Pow10Exceeds(n - 1);
    }
  }

  lemma DigitsOf(n: nat, width: nat)
    requires n < Pow10(width)
    ensures DigitsValue(Digits(n, width)) == n
  {
    DigitsDenote(n, width);
    ModIs(n, Pow10(width), 0, n);
  }

  /** A literal can write every natural number plus every proper fraction over a power of ten. */
  lemma DecimalsAreLiterals(w: nat, f: nat, scale: nat)
    requires f < Pow10(scale)
    ensures IsDecimal(w as real + f as real / Pow10(scale) as real)
  {
    Pow10Exceeds(w);
    DigitsOf(w, w + 1);
    DigitsOf(f, scale);
    assert IsLiteral(Digits(w, w + 1), Digits(f, scale));
  }

  lemma NaturalsAreDecimals(n: nat)
    ensures IsDecimal(n as real)
  {
    DecimalsAreLiterals(n, 0, 0);
  }

  // ---- the round trip ---------------------------------------------------------------

  lemma {:induction false} ItemsArePrintable(items: seq<string>)
    requires forall i :: 0 <= i < |items| ==> IsStringText(items[i])
    ensures AllPrintable(PrintItems(items))
  {
    if |items| > 1 {
      ItemsArePrintable(items[1..]);
    }
  }

  lemma VariableIsPrintable(v: Variable)
    requires v != UnknownVariable
    ensures IsPrintable(Ident(VariableName(v)))
  {
    match v {
      case Hour =>
      case Weekday =>
      case DayOfMonth =>
      case SecondsSinceBoot =>
      case PulseMode =>
      case Tether =>
      case NetworkSsid =>
      case OracleScore =>
    }
  }

  lemma OperatorIsPrintable(op: Operator)
    requires op != NoOperator
    ensures IsPrintable(OperatorToken(op))
  {
    match op {
      case In =>
      case Between =>
      case _ =>
    }
  }

  lemma ConnectivesArePrintable()
    ensures IsPrintable(AND) && IsPrintable(OR) && IsPrintable(NOT)
  {
  }

  lemma BlockWordsArePrintable()
    ensures IsPrintable(ALLOW_WHEN) && IsPrintable(RELOCK_AFTER) && IsPrintable(Ident("min"))
  {
  }

  lemma PrintablesJoin(a: seq<Token>, b: seq<Token>)
    requires AllPrintable(a) && AllPrintable(b)
    ensures AllPrintable(a + b)
  {
  }

  lemma PredicateIsPrintable(e: Expr)
    requires IsBuildableExpr(e) && e.Pred?
    ensures AllPrintable(Print(e, 0))
  {
    VariableIsPrintable(e.variable);
    OperatorIsPrintable(e.op);
    if e.value.List? {
      ItemsArePrintable(e.value.list);
    }
    assert AllPrintable(PrintValue(e.value));
  }

  lemma {:induction false} ExprIsPrintable(e: Expr, level: nat)
    requires IsBuildableExpr(e)
    ensures AllPrintable(Print(e, level))
    decreases e, level
  {
    ConnectivesArePrintable();
    if Precedence(e) < level {
      ExprIsPrintable(e, 0);
    } else {
      match e {
        case Or(left, right) =>
          ExprIsPrintable(left, 0);
          ExprIsPrintable(right, 1);
          PrintablesJoin([OR], Print(right, 1));
          PrintablesJoin(Print(left, 0), [OR] + Print(right, 1));
        case And(left, right) =>
          ExprIsPrintable(left, 1);
          ExprIsPrintable(right, 2);
          PrintablesJoin([AND], Print(right, 2));
          PrintablesJoin(Print(left, 1), [AND] + Print(right, 2));
        case Not(arg) =>
          ExprIsPrintable(arg, 2);
          PrintablesJoin([NOT], Print(arg, 2));
        case Pred(_, _, _) =>
          PredicateIsPrintable(e);
          PrintCost(e, level);
      }
    }
  }

  lemma PolicyIsPrintable(p: Policy)
    requires IsBuildable(p)
    ensures AllPrintable(PrintPolicy(p))
  {
    BlockWordsArePrintable();
    ExprIsPrintable(p.allow, 0);
    if p.relock.Some? {
      NaturalsAreDecimals(p.relock.value / 60);
    }
  }

  /** A policy as text, with as few parentheses as the tree allows. */
  ghost function PolicyText(p: Policy): string
    requires IsBuildable(p)
  {
    PolicyIsPrintable(p);
    Render(PrintPolicy(p))
  }

  /** Printing a policy, then lexing and parsing it, returns the same policy. */
  lemma RoundTrip(p: Policy)
    requires IsBuildable(p)
    ensures Parse(PolicyText(p)) == Some(p)
  {
    PolicyIsPrintable(p);
    TokensOfRender(PrintPolicy(p));
    PolicyDerives(p);
    PolicyComplete(PrintPolicy(p), p);
  }

  // ---- every parsed policy is buildable ---------------------------------------------

  lemma ScanIsPrintable(s: string)
    requires Scan(s).0 != Eof && Scan(s).0 != Error
    ensures IsPrintable(Scan(s).0)
  {
    if IsDigit(Head(s)) {
      ScanNumberIsPrintable(s);
    } else if Head(s) == '"' {
      assert IsStringText(s[1..][..Span(s[1..], IsStringBody)]);
    }
  }

  lemma ScanNumberIsPrintable(s: string)
    requires IsDigit(Head(s))
    ensures IsPrintable(ScanNumber(s).0)
  {
    var n := Span(s, IsDigit);
    var u := s[n..];
    assert IsLiteral(s[..n], "");
    if Head(u) == '.' && IsDigit(Second(u)) {
      var m := Span(u[1..], IsDigit);
      assert IsLiteral(s[..n], u[1..][..m]);
    }
  }

  /** The tokens could have come out of the lexer, errors included. */
  ghost predicate AllScanned(ts: seq<Token>) {
    forall t :: t in ts && t != Error ==> IsPrintable(t)
  }

  lemma ScannedParts(a: seq<Token>, t: Token, b: seq<Token>)
    requires AllScanned(a + [t] + b)
    ensures AllScanned(a) && AllScanned(b)
  {
    var ts := a + [t] + b;
    assert forall x :: x in a ==> x in ts;
    assert forall x :: x in b ==> x in ts;
  }

  lemma {:induction false} TokensArePrintable(s: string)
    ensures AllScanned(Tokens(s))
    decreases |s|
  {
    var (t, rest) := Next(s);
    if t != Eof {
      TokensArePrintable(rest);
      if t != Error {
        ScanIsPrintable(s[Span(s, IsSpace)..]);
      }
    }
  }

  lemma {:induction false} ItemsAreBuildable(items: seq<string>, ts: seq<Token>)
    requires DerivesItems(items, ts) && AllScanned(ts)
    ensures forall i :: 0 <= i < |items| ==> IsStringText(items[i])
    decreases |ts|
  {
    if ts != [] {
      assert ts[0] in ts;
      if |ts| > 1 {
        ItemsAreBuildable(items[1..], ts[2..]);
        assert items == [items[0]] + items[1..];
      }
    }
  }

  lemma PredicateIsBuildable(e: Expr, ts: seq<Token>)
    requires DerivesPredicate(e, ts) && AllScanned(ts)
    ensures IsBuildableExpr(e)
  {
    var rest := ts[2..];
    if e.op == In {
      ItemsAreBuildable(e.value.list, rest[1..|rest| - 1]);
    } else {
      assert rest[0] in ts && rest[|rest| - 1] in ts;
    }
  }

  lemma {:induction false} OrIsBuildable(e: Expr, ts: seq<Token>)
    requires DerivesOr(e, ts) && AllScanned(ts)
    ensures IsBuildableExpr(e)
    decreases |ts|, 3
  {
    if DerivesAnd(e, ts) {
      AndIsBuildable(e, ts);
    } else {
      var a, b := SplitOr(e, ts);
      ScannedParts(a, OR, b);
      OrIsBuildable(e.left, a);
      AndIsBuildable(e.right, b);
    }
  }

  lemma {:induction false} AndIsBuildable(e: Expr, ts: seq<Token>)
    requires DerivesAnd(e, ts) && AllScanned(ts)
    ensures IsBuildableExpr(e)
    decreases |ts|, 2
  {
    if DerivesUnary(e, ts) {
      UnaryIsBuildable(e, ts);
    } else {
      var a, b := SplitAnd(e, ts);
      ScannedParts(a, AND, b);
      AndIsBuildable(e.left, a);
      UnaryIsBuildable(e.right, b);
    }
  }

  lemma {:induction false} UnaryIsBuildable(e: Expr, ts: seq<Token>)
    requires DerivesUnary(e, ts) && AllScanned(ts)
    ensures IsBuildableExpr(e)
    decreases |ts|, 1
  {
    if DerivesPrimary(e, ts) {
      PrimaryIsBuildable(e, ts);
    } else {
      var operand := SplitNot(e, ts);
      assert [] + [NOT] + operand == ts;
      ScannedParts([], NOT, operand);
      UnaryIsBuildable(e.arg, operand);
    }
  }

  lemma {:induction false} PrimaryIsBuildable(e: Expr, ts: seq<Token>)
    requires DerivesPrimary(e, ts) && AllScanned(ts)
    ensures IsBuildableExpr(e)
    decreases |ts|, 0
  {
    if DerivesPredicate(e, ts) {
      PredicateIsBuildable(e, ts);
    } else {
      var inner := SplitParens(e, ts);
      assert [] + [LParen] + (inner + [RParen]) == ts && inner + [RParen] + [] == inner + [RParen];
      ScannedParts([], LParen, inner + [RParen]);
      ScannedParts(inner, RParen, []);
      OrIsBuildable(e, inner);
    }
  }

  lemma RelockIsBuildable(relock: Option<int>, ts: seq<Token>)
    requires DerivesRelock(relock, ts) && AllScanned(ts)
    ensures relock.Some? ==> relock.value >= 0 && relock.value % 60 == 0
  {
    if relock.Some? {
      assert ts[2] in ts;
      DecimalsAreNotNegative(ts[2].value);
    }
  }

  lemma ParsedIsBuildable(text: string, p: Policy)
    requires Parse(text) == Some(p)
    ensures IsBuildable(p)
  {
    var ts := Tokens(text);
    PolicySound(ts, p);
    var k :| 2 <= k <= |ts| && DerivesPolicyAt(p, ts, k);
    TokensArePrintable(text);
    OrIsBuildable(p.allow, ts[2..k]);
    RelockIsBuildable(p.relock, ts[k..]);
  }

  /** A policy is the result of parsing some text exactly if it is buildable. */
  lemma ParsedIffBuildable(p: Policy)
    ensures IsBuildable(p) <==> exists text :: Parse(text) == Some(p)
  {
    if IsBuildable(p) {
      RoundTrip(p);
    }
    forall text | Parse(text) == Some(p) ensures IsBuildable(p) {
      ParsedIsBuildable(text, p);
    }
  }

  lemma DecimalsAreNotNegative(x: real)
    requires IsDecimal(x)
    ensures x >= 0.0 && x.Floor >= 0
  {
    var whole, frac :| IsLiteral(whole, frac) && Decimal(whole, frac) == x;
    var n, p := DigitsValue(frac) as real, Pow10(|frac|) as real;
    assert n / p >= 0.0;
  }
}
