/** What is left of a policy whose text is cut off, as the runtime's buffer does. */
module VaultCutting {
  import opened Options
  import opened VaultAst
  import opened VaultLexer
  import opened VaultGrammar
  import opened VaultParser
  import opened VaultParserCorrect

  // ---- cutting a text cuts its last token -------------------------------------------

  /** Parentheses and commas, of which a policy's text may have more or fewer. */
  predicate IsFiller(t: Token) {
    t == LParen || t == RParen || t == Comma
  }

  /** What is left of a token that is cut in two. */
  predicate CutsToken(c: Token, t: Token) {
    && c != t && !IsFiller(c) && !IsFiller(t)
    && (c.Ident? && t.Ident? ==> c.text <= t.text)
  }

  /** Scanning the first `m` characters: the same token if it is whole there. Otherwise an error,
      a number and a lone point, or what is left of the token, which may be a number of the same
      value. */
  predicate CutsScan(u: string, m: nat)
    requires m <= |u|
  {
    var (t, rest) := Scan(u);
    var (c, left) := Scan(u[..m]);
    var used := |u| - |rest|;
    if 0 <= used <= m then c == t && left == rest[..m - used]
    else c == Error || left == "." || (c != Eof && left == "" && (c == t || CutsToken(c, t)))
  }

  lemma CutSpan(s: string, p: char -> bool, m: nat)
    requires m <= |s|
    ensures Span(s[..m], p) == if Span(s, p) <= m then Span(s, p) else m
  {
    var n := Span(s, p);
    SpanIs(s[..m], p, if n <= m then n else m);
  }

  lemma CutIdentifier(u: string, m: nat)
    requires 0 < m <= |u| && IsIdentStart(u[0])
    ensures CutsScan(u, m)
  {
    var n := Span(u, IsIdentCont);
    CutSpan(u, IsIdentCont, m);
    if n <= m {
      assert u[..m][..n] == u[..n] && u[..m][n..] == u[n..][..m - n];
    } else {
      assert u[..m] <= u[..n];
    }
  }

  lemma StringScans(u: string, text: string, after: string)
    requires IsQuoted(u, text, after)
    ensures Scan(u) == if Head(after) == '"' then (Str(text), after[1..]) else (Error, after)
  {
    SpanOf(text, after, IsStringBody);
    assert u[1..] == text + after;
    assert Head(after) == '"' ==> (text + after)[|text| + 1..] == after[1..];
  }

  /** What the two scans must give. */
  lemma CutsBy(u: string, m: nat, t: Token, rest: string, c: Token, left: string)
    requires m <= |u| && Scan(u) == (t, rest) && Scan(u[..m]) == (c, left) && |rest| <= |u|
    requires if |u| - |rest| <= m then c == t && left == rest[..m - (|u| - |rest|)]
      else c == Error || left == "." || (c != Eof && left == "" && (c == t || CutsToken(c, t)))
    ensures CutsScan(u, m)
  {
  }

  /** `u` begins with a quote, and `after` is what follows the characters after it that can be in
      a string. */
  predicate IsQuoted(u: string, text: string, after: string) {
    && u == ['"'] + (text + after) && !IsStringBody(Head(after))
    && forall i :: 0 <= i < |text| ==> IsStringBody(text[i])
  }

  lemma CutInString(u: string, text: string, after: string, m: nat)
    requires IsQuoted(u, text, after) && 0 < m <= |text| + 1
    ensures CutsScan(u, m)
  {
    assert u[..m] == ['"'] + (text[..m - 1] + "");
    StringScans(u[..m], text[..m - 1], "");
    StringScans(u, text, after);
    CutsBy(u, m, Scan(u).0, Scan(u).1, Error, "");
  }

  lemma CutAfterString(u: string, text: string, after: string, m: nat)
    requires IsQuoted(u, text, after) && |text| + 1 < m <= |u|
    ensures CutsScan(u, m)
  {
    var left := after[..m - 1 - |text|];
    assert u[..m] == ['"'] + (text + left);
    StringScans(u[..m], text, left);
    StringScans(u, text, after);
    if Head(after) == '"' {
      CutsBy(u, m, Str(text), after[1..], Str(text), left[1..]);
    } else {
      CutsBy(u, m, Error, after, Error, left);
    }
  }

  lemma CutString(u: string, m: nat)
    requires 0 < m <= |u| && u[0] == '"'
    ensures CutsScan(u, m)
  {
    var n := Span(u[1..], IsStringBody);
    var text, after := u[1..][..n], u[1..][n..];
    assert u == ['"'] + (text + after);
    if m <= n + 1 {
      CutInString(u, text, after, m);
    } else {
      CutAfterString(u, text, after, m);
    }
  }

  lemma CutSymbol(u: string, m: nat)
    requires 0 < m <= |u| && u[0] != '\0' && !IsIdentStart(u[0]) && !IsDigit(u[0]) && u[0] != '"'
    ensures CutsScan(u, m)
  {
    if m == 1 {
      assert u[..1][1..] == "";
    } else {
      assert u[..m][1..] == u[1..][..m - 1] && u[..m][2..] == u[2..][..m - 2];
    }
  }

  /** `u` begins with an integer literal, and `rest` is what follows it. */
  predicate IsInteger(u: string, whole: string, rest: string) {
    && u == whole + rest && whole != "" && AllDigits(whole)
    && !IsDigit(Head(rest)) && !(Head(rest) == '.' && IsDigit(Second(rest)))
  }

  /** The same for a literal with a point. */
  predicate IsPointed(u: string, whole: string, frac: string, rest: string) {
    && u == whole + (['.'] + (frac + rest)) && whole != "" && AllDigits(whole)
    && frac != "" && AllDigits(frac) && !IsDigit(Head(rest))
  }

  lemma IntegerScans(u: string, whole: string, rest: string)
    requires IsInteger(u, whole, rest)
    ensures Scan(u) == (Num(Decimal(whole, "")), rest)
  {
    ScanInteger(whole, rest);
  }

  lemma PointedScans(u: string, whole: string, frac: string, rest: string)
    requires IsPointed(u, whole, frac, rest)
    ensures Scan(u) == (Num(Decimal(whole, frac)), rest)
  {
    ScanPointed(whole, frac, rest);
  }

  lemma CutInteger(u: string, whole: string, rest: string, m: nat) returns (left: string, kept: string)
    requires IsInteger(u, whole, rest) && 0 < m <= |u|
    ensures IsInteger(u[..m], kept, left)
    ensures if |whole| <= m then kept == whole && left == rest[..m - |whole|] else left == ""
  {
    if |whole| <= m {
      kept, left := whole, rest[..m - |whole|];
      assert u[..m] == whole + left;
    } else {
      kept, left := whole[..m], "";
      assert u[..m] == kept + "";
    }
  }

  lemma CutPointed(u: string, whole: string, frac: string, rest: string, m: nat)
    returns (left: string, kept: string, part: string)
    requires IsPointed(u, whole, frac, rest) && |whole| + 1 < m <= |u|
    ensures IsPointed(u[..m], kept, part, left) && kept == whole
    ensures if |whole| + 1 + |frac| <= m
      then part == frac && left == rest[..m - |whole| - 1 - |frac|]
      else left == ""
  {
    kept := whole;
    if |whole| + 1 + |frac| <= m {
      part, left := frac, rest[..m - |whole| - 1 - |frac|];
    } else {
      part, left := frac[..m - |whole| - 1], "";
    }
    assert u[..m] == kept + (['.'] + (part + left));
  }

  /** A point needs a digit after it, so before one the literal is an integer. */
  lemma CutAtPoint(u: string, whole: string, frac: string, rest: string, m: nat)
    returns (left: string, kept: string)
    requires IsPointed(u, whole, frac, rest) && 0 < m <= |whole| + 1
    ensures IsInteger(u[..m], kept, left) && (left == "" || left == ".")
  {
    if m <= |whole| {
      kept, left := whole[..m], "";
    } else {
      kept, left := whole, ".";
    }
    assert u[..m] == kept + left;
  }

  lemma CutNumber(u: string, m: nat)
    requires 0 < m <= |u| && IsDigit(u[0])
    ensures CutsScan(u, m)
  {
    var n := Span(u, IsDigit);
    var whole, after := u[..n], u[n..];
    assert u == whole + after;
    if Head(after) == '.' && IsDigit(Second(after)) {
      var f := Span(after[1..], IsDigit);
      var frac, rest := after[1..][..f], after[1..][f..];
      assert after == ['.'] + (frac + rest);
      CutPointedNumber(u, whole, frac, rest, m);
    } else {
      CutIntegerNumber(u, whole, after, m);
    }
  }

  lemma CutIntegerNumber(u: string, whole: string, rest: string, m: nat)
    requires IsInteger(u, whole, rest) && 0 < m <= |u|
    ensures CutsScan(u, m)
  {
    var left, kept := CutInteger(u, whole, rest, m);
    IntegerScans(u, whole, rest);
    IntegerScans(u[..m], kept, left);
    CutsBy(u, m, Num(Decimal(whole, "")), rest, Num(Decimal(kept, "")), left);
  }

  lemma CutBeforePoint(u: string, whole: string, frac: string, rest: string, m: nat)
    requires IsPointed(u, whole, frac, rest) && 0 < m <= |whole| + 1
    ensures CutsScan(u, m)
  {
    var left, kept := CutAtPoint(u, whole, frac, rest, m);
    PointedScans(u, whole, frac, rest);
    IntegerScans(u[..m], kept, left);
    CutsBy(u, m, Num(Decimal(whole, frac)), rest, Num(Decimal(kept, "")), left);
  }

  lemma CutAfterPoint(u: string, whole: string, frac: string, rest: string, m: nat)
    requires IsPointed(u, whole, frac, rest) && |whole| + 1 < m <= |u|
    ensures CutsScan(u, m)
  {
    var left, kept, part := CutPointed(u, whole, frac, rest, m);
    PointedScans(u, whole, frac, rest);
    PointedScans(u[..m], kept, part, left);
    CutsBy(u, m, Num(Decimal(whole, frac)), rest, Num(Decimal(kept, part)), left);
  }

  lemma CutPointedNumber(u: string, whole: string, frac: string, rest: string, m: nat)
    requires IsPointed(u, whole, frac, rest) && 0 < m <= |u|
    ensures CutsScan(u, m)
  {
    if m <= |whole| + 1 {
      CutBeforePoint(u, whole, frac, rest, m);
    } else {
      CutAfterPoint(u, whole, frac, rest, m);
    }
  }

  lemma CutScan(u: string, m: nat)
    requires 0 < m <= |u| && u[0] != '\0'
    ensures CutsScan(u, m)
  {
    if IsIdentStart(u[0]) {
      CutIdentifier(u, m);
    } else if IsDigit(u[0]) {
      CutNumber(u, m);
    } else if u[0] == '"' {
      CutString(u, m);
    } else {
      CutSymbol(u, m);
    }
  }

  /** The tokens of a text that is cut off: those of the whole text up to some point, at most the
      last of them cut too; unless there is an error among them. */
  predicate IsCut(cut: seq<Token>, whole: seq<Token>) {
    || Error in cut
    || cut <= whole
    || (0 < |cut| <= |whole| && cut[..|cut| - 1] == whole[..|cut| - 1] && CutsToken(cut[|cut| - 1], whole[|cut| - 1]))
  }

  lemma CutSnoc(t: Token, cut: seq<Token>, whole: seq<Token>)
    requires IsCut(cut, whole)
    ensures IsCut([t] + cut, [t] + whole)
  {
    if Error !in cut && !(cut <= whole) {
      var n := |cut| - 1;
      assert ([t] + cut)[..n + 1] == [t] + cut[..n] && ([t] + whole)[..n + 1] == [t] + whole[..n];
    }
  }

  lemma PointIsError()
    ensures Tokens(".") == [Error]
  {
    SpanIs(".", IsSpace, 0);
    assert "."[0..] == "." && "."[1..] == "";
    assert Next(".") == (Error, "");
    assert Next("").0 == Eof;
  }

  lemma CutLast(c: Token, left: string, t: Token, after: seq<Token>)
    requires c == Error || left == "." || (left == "" && (c == t || CutsToken(c, t)))
    ensures IsCut([c] + Tokens(left), [t] + after)
  {
    if left == "." {
      PointIsError();
    } else if c != Error {
      assert Next("").0 == Eof;
    }
  }

  lemma TokensOfScan(s: string, u: string, t: Token, rest: string)
    requires u == s[Span(s, IsSpace)..] && Scan(u) == (t, rest) && t != Eof
    ensures Tokens(s) == [t] + Tokens(rest)
  {
  }

  lemma NoTokens(s: string)
    requires Span(s, IsSpace) == |s| || s[Span(s, IsSpace)] == '\0'
    ensures Tokens(s) == []
  {
  }

  /** The two scans, and how they compare. */
  lemma ScanBoth(u: string, m: nat) returns (t: Token, rest: string, c: Token, left: string, used: nat)
    requires 0 < m <= |u| && u[0] != '\0'
    ensures Scan(u) == (t, rest) && Scan(u[..m]) == (c, left) && t != Eof && c != Eof
    ensures 0 < used && |u| == used + |rest|
    ensures if used <= m then c == t && left == rest[..m - used]
      else c == Error || left == "." || (left == "" && (c == t || CutsToken(c, t)))
  {
    CutScan(u, m);
    t, rest, c, left := Scan(u).0, Scan(u).1, Scan(u[..m]).0, Scan(u[..m]).1;
    used := |u| - |rest|;
  }

  lemma {:induction false} CutTokens(s: string, n: nat) returns (cut: seq<Token>, whole: seq<Token>)
    requires n <= |s|
    ensures cut == Tokens(s[..n]) && whole == Tokens(s) && IsCut(cut, whole)
    decreases |s|, 1
  {
    var k := Span(s, IsSpace);
    CutSpan(s, IsSpace, n);
    if n <= k || s[k] == '\0' {
      NoTokens(s[..n]);
      cut, whole := [], Tokens(s);
    } else {
      assert s[..n][k..] == s[k..][..n - k];
      cut, whole := CutTail(s, s[..n], s[k..], n - k);
    }
  }

  lemma {:induction false} CutTail(s: string, s': string, u: string, m: nat)
    returns (cut: seq<Token>, whole: seq<Token>)
    requires u == s[Span(s, IsSpace)..] && 0 < m <= |u| && u[0] != '\0'
    requires u[..m] == s'[Span(s', IsSpace)..]
    ensures cut == Tokens(s') && whole == Tokens(s) && IsCut(cut, whole)
    decreases |u|, 0
  {
    var t, rest, c, left, used := ScanBoth(u, m);
    TokensOfScan(s, u, t, rest);
    TokensOfScan(s', u[..m], c, left);
    if used <= m {
      var cut', whole' := CutTokens(rest, m - used);
      cut, whole := [t] + cut', [t] + whole';
      CutSnoc(t, cut', whole');
    } else {
      cut, whole := [c] + Tokens(left), [t] + Tokens(rest);
      CutLast(c, left, t, Tokens(rest));
    }
  }

  // ---- what a tree fixes of its tokens ----------------------------------------------

  function Fillers(ts: seq<Token>): nat {
    multiset(ts)[LParen] + multiset(ts)[RParen] + multiset(ts)[Comma]
  }

  lemma FillersJoin(a: seq<Token>, b: seq<Token>)
    ensures Fillers(a + b) == Fillers(a) + Fillers(b)
  {
    assert multiset(a + b) == multiset(a) + multiset(b);
  }

  lemma FillersOne(t: Token)
    ensures Fillers([t]) == if IsFiller(t) then 1 else 0
  {
  }

  lemma {:induction false} FillersBound(ts: seq<Token>)
    ensures Fillers(ts) <= |ts|
  {
    if ts != [] {
      FillersBound(ts[1..]);
      FillersOne(ts[0]);
      FillersJoin([ts[0]], ts[1..]);
      assert ts == [ts[0]] + ts[1..];
    }
  }

  /** The last token that is no filler. */
  predicate EndsIn(ts: seq<Token>, last: Token) {
    !IsFiller(last) && exists i :: 0 <= i < |ts| && ts[i] == last && AllFiller(ts[i + 1..])
  }

  predicate AllFiller(ts: seq<Token>) {
    forall i :: 0 <= i < |ts| ==> IsFiller(ts[i])
  }

  lemma EndIsUnique(ts: seq<Token>, last: Token, last': Token)
    requires EndsIn(ts, last) && EndsIn(ts, last')
    ensures last == last'
  {
    var i :| 0 <= i < |ts| && ts[i] == last && AllFiller(ts[i + 1..]);
    var j :| 0 <= j < |ts| && ts[j] == last' && AllFiller(ts[j + 1..]);
    LaterIsFiller(ts, i);
    LaterIsFiller(ts, j);
  }

  lemma LaterIsFiller(ts: seq<Token>, i: int)
    requires 0 <= i < |ts| && AllFiller(ts[i + 1..])
    ensures forall k :: i < k < |ts| ==> IsFiller(ts[k])
  {
    assert forall k :: i < k < |ts| ==> ts[i + 1..][k - i - 1] == ts[k];
  }

  lemma EndJoin(a: seq<Token>, b: seq<Token>, last: Token)
    requires EndsIn(b, last)
    ensures EndsIn(a + b, last)
  {
    var i :| 0 <= i < |b| && b[i] == last && AllFiller(b[i + 1..]);
    assert (a + b)[|a| + i] == last && (a + b)[|a| + i + 1..] == b[i + 1..];
  }

  lemma EndFilled(a: seq<Token>, b: seq<Token>, last: Token)
    requires EndsIn(a, last) && AllFiller(b)
    ensures EndsIn(a + b, last)
  {
    var i :| 0 <= i < |a| && a[i] == last && AllFiller(a[i + 1..]);
    assert (a + b)[i] == last && (a + b)[i + 1..] == a[i + 1..] + b;
  }

  lemma EndOne(t: Token)
    requires !IsFiller(t)
    ensures EndsIn([t], t)
  {
    assert [t][0] == t && [t][1..] == [];
  }

  function ValueWeight(v: Value): nat {
    match v
    case List(items) => 2 + |items|
    case Range(_, _) => 3
    case _ => 1
  }

  function Weight(e: Expr): nat {
    match e
    case Pred(_, _, v) => 2 + ValueWeight(v)
    case Not(arg) => 1 + Weight(arg)
    case And(left, right) => Weight(left) + 1 + Weight(right)
    case Or(left, right) => Weight(left) + 1 + Weight(right)
  }

  function LastOfValue(v: Value): Token {
    match v
    case Number(x) => Num(x)
    case Word(w) => Ident(w)
    case Quoted(w) => Str(w)
    case List(_) => RBracket
    case Range(_, hi) => Num(hi)
  }

  function LastOf(e: Expr): Token {
    match e
    case Pred(_, _, v) => LastOfValue(v)
    case Not(arg) => LastOf(arg)
    case And(_, right) => LastOf(right)
    case Or(_, right) => LastOf(right)
  }

  /** So many tokens are no filler, this is the last of them, and none is an error. */
  predicate Sums(ts: seq<Token>, weight: nat, last: Token) {
    |ts| == weight + Fillers(ts) && EndsIn(ts, last) && Error !in ts
  }

  lemma SumsOne(t: Token)
    requires !IsFiller(t) && t != Error
    ensures Sums([t], 1, t)
  {
    FillersOne(t);
    EndOne(t);
  }

  lemma SumsPrefix(t: Token, b: seq<Token>, weight: nat, last: Token)
    requires !IsFiller(t) && t != Error && Sums(b, weight, last)
    ensures Sums([t] + b, 1 + weight, last)
  {
    FillersOne(t);
    FillersJoin([t], b);
    EndJoin([t], b, last);
  }

  lemma SumsJoin(a: seq<Token>, weight: nat, lastA: Token, t: Token, b: seq<Token>, weight': nat, last: Token)
    requires Sums(a, weight, lastA) && !IsFiller(t) && t != Error && Sums(b, weight', last)
    ensures Sums(a + [t] + b, weight + 1 + weight', last)
  {
    FillersOne(t);
    FillersJoin(a, [t]);
    FillersJoin(a + [t], b);
    EndJoin(a + [t], b, last);
  }

  lemma SumsParens(b: seq<Token>, weight: nat, last: Token)
    requires Sums(b, weight, last)
    ensures Sums([LParen] + b + [RParen], weight, last)
  {
    FillersOne(LParen);
    FillersOne(RParen);
    FillersJoin([LParen], b);
    FillersJoin([LParen] + b, [RParen]);
    EndJoin([LParen], b, last);
    EndFilled([LParen] + b, [RParen], last);
  }

  lemma {:induction false} ItemsSum(items: seq<string>, ts: seq<Token>)
    requires DerivesItems(items, ts)
    ensures |ts| == |items| + Fillers(ts) && Error !in ts
    decreases |ts|
  {
    if |ts| == 1 {
      FillersOne(ts[0]);
      assert ts == [ts[0]];
    } else if ts != [] {
      ItemsSum(items[1..], ts[2..]);
      FillersOne(ts[0]);
      FillersOne(Comma);
      FillersJoin([ts[0]], [Comma]);
      FillersJoin([ts[0]] + [Comma], ts[2..]);
      assert ts == [ts[0]] + [Comma] + ts[2..];
    }
  }

  lemma ListSums(items: seq<string>, inner: seq<Token>)
    requires DerivesItems(items, inner)
    ensures Sums([LBracket] + inner + [RBracket], 2 + |items|, RBracket)
  {
    ItemsSum(items, inner);
    FillersOne(LBracket);
    FillersOne(RBracket);
    FillersJoin([LBracket], inner);
    FillersJoin([LBracket] + inner, [RBracket]);
    EndOne(RBracket);
    EndJoin([LBracket] + inner, [RBracket], RBracket);
  }

  lemma RangeSums(lo: real, hi: real, ts: seq<Token>)
    requires ts == [Num(lo), AND, Num(hi)]
    ensures Sums(ts, 3, Num(hi))
  {
    SumsOne(Num(hi));
    SumsPrefix(AND, [Num(hi)], 1, Num(hi));
    SumsPrefix(Num(lo), [AND] + [Num(hi)], 2, Num(hi));
    assert ts == [Num(lo)] + ([AND] + [Num(hi)]);
  }

  lemma ValueSums(op: Operator, v: Value, ts: seq<Token>)
    requires DerivesValue(op, v, ts)
    ensures Sums(ts, ValueWeight(v), LastOfValue(v))
  {
    if op == In {
      BracketSums(v.list, ts);
    } else if op == Between {
      RangeSums(v.lo, v.hi, ts);
    } else {
      SingleSums(op, v, ts);
    }
  }

  lemma BracketSums(items: seq<string>, ts: seq<Token>)
    requires |ts| >= 2 && ts[0] == LBracket && ts[|ts| - 1] == RBracket && DerivesItems(items, ts[1..|ts| - 1])
    ensures Sums(ts, 2 + |items|, RBracket)
  {
    var inner := SplitBrackets(ts);
    ListSums(items, inner);
  }

  lemma SplitBrackets(ts: seq<Token>) returns (inner: seq<Token>)
    requires |ts| >= 2 && ts[0] == LBracket && ts[|ts| - 1] == RBracket
    ensures inner == ts[1..|ts| - 1] && ts == [LBracket] + inner + [RBracket]
  {
    inner := ts[1..|ts| - 1];
  }

  lemma SingleSums(op: Operator, v: Value, ts: seq<Token>)
    requires DerivesValue(op, v, ts) && op != In && op != Between
    ensures Sums(ts, ValueWeight(v), LastOfValue(v))
  {
    var t := ts[0];
    SumsOne(t);
    assert ts == [t];
  }

  lemma TwoBefore(t: Token, t': Token, b: seq<Token>, weight: nat, last: Token, ts: seq<Token>)
    requires !IsFiller(t) && t != Error && !IsFiller(t') && t' != Error && Sums(b, weight, last)
    requires ts == [t] + ([t'] + b)
    ensures Sums(ts, 2 + weight, last)
  {
    SumsPrefix(t', b, weight, last);
    SumsPrefix(t, [t'] + b, 1 + weight, last);
  }

  lemma PredicateSums(e: Expr, ts: seq<Token>)
    requires DerivesPredicate(e, ts)
    ensures Sums(ts, Weight(e), LastOf(e))
  {
    var t, t', value := SplitPredicate(e, ts);
    ValueSums(e.op, e.value, value);
    TwoBefore(t, t', value, ValueWeight(e.value), LastOf(e), ts);
  }

  lemma SplitPredicate(e: Expr, ts: seq<Token>) returns (t: Token, t': Token, value: seq<Token>)
    requires DerivesPredicate(e, ts)
    ensures ts == [t] + ([t'] + value) && DerivesValue(e.op, e.value, value)
    ensures !IsFiller(t) && t != Error && !IsFiller(t') && t' != Error
  {
    t, t', value := ts[0], ts[1], ts[2..];
  }

  lemma BinarySums(e: Expr, t: Token, a: seq<Token>, b: seq<Token>, ts: seq<Token>)
    requires e.And? || e.Or?
    requires Sums(a, Weight(e.left), LastOf(e.left)) && Sums(b, Weight(e.right), LastOf(e.right))
    requires ts == a + [t] + b && !IsFiller(t) && t != Error
    ensures Sums(ts, Weight(e), LastOf(e))
  {
    SumsJoin(a, Weight(e.left), LastOf(e.left), t, b, Weight(e.right), LastOf(e.right));
  }

  lemma NotSums(e: Expr, b: seq<Token>, ts: seq<Token>)
    requires e.Not? && Sums(b, Weight(e.arg), LastOf(e.arg)) && ts == [NOT] + b
    ensures Sums(ts, Weight(e), LastOf(e))
  {
    SumsPrefix(NOT, b, Weight(e.arg), LastOf(e.arg));
  }

  /** All derivations of a tree have as many tokens that are no filler, and the same last one. */
  lemma {:induction false} OrSums(e: Expr, ts: seq<Token>)
    requires DerivesOr(e, ts)
    ensures Sums(ts, Weight(e), LastOf(e))
    decreases |ts|, 3
  {
    if DerivesAnd(e, ts) {
      AndSums(e, ts);
    } else {
      var a, b := SplitOr(e, ts);
      OrSums(e.left, a);
      AndSums(e.right, b);
      BinarySums(e, OR, a, b, ts);
    }
  }

  lemma {:induction false} AndSums(e: Expr, ts: seq<Token>)
    requires DerivesAnd(e, ts)
    ensures Sums(ts, Weight(e), LastOf(e))
    decreases |ts|, 2
  {
    if DerivesUnary(e, ts) {
      UnarySums(e, ts);
    } else {
      var a, b := SplitAnd(e, ts);
      AndSums(e.left, a);
      UnarySums(e.right, b);
      BinarySums(e, AND, a, b, ts);
    }
  }

  lemma {:induction false} UnarySums(e: Expr, ts: seq<Token>)
    requires DerivesUnary(e, ts)
    ensures Sums(ts, Weight(e), LastOf(e))
    decreases |ts|, 1
  {
    if DerivesPrimary(e, ts) {
      PrimarySums(e, ts);
    } else {
      var operand := SplitNot(e, ts);
      UnarySums(e.arg, operand);
      NotSums(e, operand, ts);
    }
  }

  lemma {:induction false} PrimarySums(e: Expr, ts: seq<Token>)
    requires DerivesPrimary(e, ts)
    ensures Sums(ts, Weight(e), LastOf(e))
    decreases |ts|, 0
  {
    if DerivesPredicate(e, ts) {
      PredicateSums(e, ts);
    } else {
      var inner := SplitParens(e, ts);
      OrSums(e, inner);
      SumsParens(inner, Weight(e), LastOf(e));
    }
  }

  // ---- when the cut text is the same policy -----------------------------------------

  /** The parts of a policy's tokens. */
  lemma SplitPolicy(p: Policy, ts: seq<Token>) returns (body: seq<Token>, block: seq<Token>)
    requires DerivesPolicy(p, ts)
    ensures ts == [ALLOW_WHEN, Colon] + body + block
    ensures DerivesOr(p.allow, body) && DerivesRelock(p.relock, block)
  {
    var k :| 2 <= k <= |ts| && DerivesPolicyAt(p, ts, k);
    body, block := ts[2..k], ts[k..];
  }

  function PolicyWeight(p: Policy): nat {
    2 + Weight(p.allow) + (if p.relock == None then 0 else 4)
  }

  predicate IsUnit(t: Token) {
    t == Ident("min") || t == Ident("hour")
  }

  lemma BlockSums(block: seq<Token>)
    requires |block| == 4 && forall i :: 0 <= i < 4 ==> !IsFiller(block[i]) && block[i] != Error
    ensures Sums(block, 4, block[3])
  {
    var t := block[3];
    SumsOne(t);
    SumsPrefix(block[2], [t], 1, t);
    assert block == [block[0]] + ([block[1]] + ([block[2]] + [t]));
    TwoBefore(block[0], block[1], [block[2]] + [t], 2, t, block);
  }

  lemma SumsAppend(a: seq<Token>, weight: nat, lastA: Token, b: seq<Token>, weight': nat, last: Token)
    requires Sums(a, weight, lastA) && Sums(b, weight', last)
    ensures Sums(a + b, weight + weight', last)
  {
    FillersJoin(a, b);
    EndJoin(a, b, last);
  }

  lemma HeadSums(body: seq<Token>, weight: nat, last: Token)
    requires Sums(body, weight, last)
    ensures Sums([ALLOW_WHEN, Colon] + body, 2 + weight, last)
  {
    assert [ALLOW_WHEN, Colon] + body == [ALLOW_WHEN] + ([Colon] + body);
    TwoBefore(ALLOW_WHEN, Colon, body, weight, last, [ALLOW_WHEN, Colon] + body);
  }

  /** A policy's tokens have a fixed number that are no filler; the last one is the tree's, or the
      unit of the relock block. */
  lemma PolicySums(p: Policy, ts: seq<Token>) returns (last: Token)
    requires DerivesPolicy(p, ts)
    ensures Sums(ts, PolicyWeight(p), last)
    ensures if p.relock == None then last == LastOf(p.allow) else IsUnit(last)
  {
    var body, block := SplitPolicy(p, ts);
    OrSums(p.allow, body);
    HeadSums(body, Weight(p.allow), LastOf(p.allow));
    last := BlockAfter(p, [ALLOW_WHEN, Colon] + body, block, ts);
  }

  lemma BlockAfter(p: Policy, head: seq<Token>, block: seq<Token>, ts: seq<Token>) returns (last: Token)
    requires Sums(head, 2 + Weight(p.allow), LastOf(p.allow)) && DerivesRelock(p.relock, block) && ts == head + block
    ensures Sums(ts, PolicyWeight(p), last)
    ensures if p.relock == None then last == LastOf(p.allow) else IsUnit(last)
  {
    if p.relock == None {
      last := LastOf(p.allow);
      assert ts == head;
    } else {
      last := block[3];
      BlockSums(block);
      SumsAppend(head, 2 + Weight(p.allow), LastOf(p.allow), block, 4, last);
    }
  }

  /** Nothing can follow a policy's tokens that leaves the policy as it is. */
  lemma NothingFollows(p: Policy, ts: seq<Token>, more: seq<Token>)
    requires DerivesPolicy(p, ts) && ParsePolicy(ts + more) == Some(p) && |more| == Fillers(more)
    ensures more == []
  {
    var body, block := SplitPolicy(p, ts);
    if more != [] {
      FirstIsFiller(more);
    }
    RestIsBlock(p, ts + more, body, block + more);
  }

  lemma RestIsBlock(p: Policy, ts: seq<Token>, body: seq<Token>, rest: seq<Token>)
    requires ts == [ALLOW_WHEN, Colon] + (body + rest) && DerivesOr(p.allow, body)
    requires Peek(rest) != AND && Peek(rest) != OR && ParsePolicy(ts) == Some(p)
    ensures DerivesRelock(p.relock, rest)
  {
    ExpressionComplete(p.allow, body, rest);
    assert ts[2..] == body + rest;
    RelockAgrees(rest, p.relock);
  }

  lemma FirstIsFiller(more: seq<Token>)
    requires |more| == Fillers(more) && more != []
    ensures IsFiller(more[0])
  {
    assert more == [more[0]] + more[1..];
    FillersJoin([more[0]], more[1..]);
    FillersOne(more[0]);
    FillersBound(more[1..]);
  }

  lemma {:induction false} AllAreFillers(ts: seq<Token>)
    requires |ts| == Fillers(ts)
    ensures AllFiller(ts)
  {
    if ts != [] {
      FirstIsFiller(ts);
      assert ts == [ts[0]] + ts[1..];
      FillersJoin([ts[0]], ts[1..]);
      FillersOne(ts[0]);
      AllAreFillers(ts[1..]);
    }
  }

  lemma LastCannotBeCut(p: Policy, before: seq<Token>, c: Token, t: Token, more: seq<Token>)
    requires DerivesPolicy(p, before + [c]) && DerivesPolicy(p, before + [t] + more)
    ensures !CutsToken(c, t)
  {
    if CutsToken(c, t) {
      var last := PolicySums(p, before + [c]);
      var last' := PolicySums(p, before + [t] + more);
      CutEnds(before, c, t, more, PolicyWeight(p), last, last');
      NoUnitIsCut(c, t);
    }
  }

  lemma NoUnitIsCut(c: Token, t: Token)
    requires CutsToken(c, t)
    ensures !(IsUnit(c) && IsUnit(t))
  {
    assert "min"[0] == 'm' && "hour"[0] == 'h';
  }

  lemma CutEnds(before: seq<Token>, c: Token, t: Token, more: seq<Token>, weight: nat, last: Token, last': Token)
    requires !IsFiller(c) && !IsFiller(t)
    requires Sums(before + [c], weight, last) && Sums(before + [t] + more, weight, last')
    ensures last == c && last' == t
  {
    FillersOne(c);
    FillersOne(t);
    FillersJoin(before, [c]);
    FillersJoin(before, [t]);
    FillersJoin(before + [t], more);
    AllAreFillers(more);
    EndOne(c);
    EndJoin(before, [c], c);
    EndIsUnique(before + [c], last, c);
    EndOne(t);
    EndJoin(before, [t], t);
    EndFilled(before + [t], more, t);
    EndIsUnique(before + [t] + more, last', t);
  }

  /** A cut text of a policy is a text of the same policy exactly if it has the same tokens. */
  lemma CutIsSameIffTokens(text: string, n: nat)
    requires n <= |text| && Parse(text).Some?
    ensures Parse(text[..n]) == Parse(text) <==> Tokens(text[..n]) == Tokens(text)
  {
    if Parse(text[..n]) == Parse(text) {
      var p := Parse(text).value;
      var cut, whole := CutTokens(text, n);
      PolicySound(cut, p);
      PolicySound(whole, p);
      SameTokens(p, cut, whole);
    }
  }

  lemma SameTokens(p: Policy, cut: seq<Token>, whole: seq<Token>)
    requires DerivesPolicy(p, cut) && DerivesPolicy(p, whole) && IsCut(cut, whole)
    ensures cut == whole
  {
    var last := PolicySums(p, cut);
    if cut <= whole {
      var more := whole[|cut|..];
      assert whole == cut + more;
      SamePrefix(p, cut, more, last);
    } else {
      CutLastToken(p, cut, whole);
    }
  }

  lemma CutLastToken(p: Policy, cut: seq<Token>, whole: seq<Token>)
    requires DerivesPolicy(p, cut) && DerivesPolicy(p, whole) && 0 < |cut| <= |whole|
    requires cut[..|cut| - 1] == whole[..|cut| - 1]
    ensures !CutsToken(cut[|cut| - 1], whole[|cut| - 1])
  {
    var n := |cut| - 1;
    var before, more := cut[..n], whole[n + 1..];
    assert cut == before + [cut[n]];
    assert whole == before + [whole[n]] + more;
    LastCannotBeCut(p, before, cut[n], whole[n], more);
  }

  lemma SamePrefix(p: Policy, cut: seq<Token>, more: seq<Token>, last: Token)
    requires DerivesPolicy(p, cut) && DerivesPolicy(p, cut + more) && Sums(cut, PolicyWeight(p), last)
    ensures more == []
  {
    var last' := PolicySums(p, cut + more);
    FillersJoin(cut, more);
    PolicyComplete(cut + more, p);
    NothingFollows(p, cut, more);
  }
}
