/** The VAULT policy lexer. A C string is modelled by the characters before its terminator:
    reading past the end of the text yields '\0', and an embedded '\0' ends the text as it
    does in C. */
module VaultLexer {

  datatype Token =
    | Ident(text: string)
    | Num(value: real)
    | Str(text: string)
    | Colon | LParen | RParen | LBracket | RBracket | Comma
    | EqEq | NotEq | Less | LessEq | Greater | GreaterEq
    | Eof
    | Error

  predicate IsSpace(c: char) {
    c == ' ' || c == '\t' || c == '\r' || c == '\n'
  }

  predicate IsDigit(c: char) {
    '0' <= c <= '9'
  }

  predicate IsIdentStart(c: char) {
    'a' <= c <= 'z' || 'A' <= c <= 'Z' || c == '_'
  }

  predicate IsIdentCont(c: char) {
    IsIdentStart(c) || IsDigit(c)
  }

  predicate IsStringBody(c: char) {
    c != '\0' && c != '"'
  }

  /** The character a C pointer at the start of `s` reads. */
  function Head(s: string): char {
    if s == "" then '\0' else s[0]
  }

  function Second(s: string): char {
    if |s| < 2 then '\0' else s[1]
  }

  /** The length of the longest prefix of `s` whose characters all satisfy `p`. */
  function Span(s: string, p: char -> bool): (n: nat)
    ensures n <= |s|
    ensures forall i :: 0 <= i < n ==> p(s[i])
    ensures n < |s| ==> !p(s[n])
  {
    if s == "" || !p(s[0]) then 0 else 1 + Span(s[1..], p)
  }

  // ---- number literals --------------------------------------------------------------

  predicate AllDigits(s: string) {
    forall i :: 0 <= i < |s| ==> IsDigit(s[i])
  }

  function DigitValue(c: char): (d: nat)
    requires IsDigit(c)
  {
    c as int - '0' as int
  }

  /** The natural number that a digit string denotes. */
  function DigitsValue(s: string): nat
    requires AllDigits(s)
  {
    if s == "" then 0 else 10 * DigitsValue(s[..|s| - 1]) + DigitValue(s[|s| - 1])
  }

  function Pow10(n: nat): (p: nat)
    ensures p >= 1
  {
    if n == 0 then 1 else 10 * Pow10(n - 1)
  }

  /** The number denoted by `whole.frac`: all digits as one natural number, over the power of
      ten that the fractional digits call for. */
  function Decimal(whole: string, frac: string): real
    requires AllDigits(whole) && AllDigits(frac)
  {
    DigitsValue(whole) as real + DigitsValue(frac) as real / Pow10(|frac|) as real
  }

  // ---- one token --------------------------------------------------------------------

  /** A number: digits with an optional single fractional part. */
  function ScanNumber(s: string): (r: (Token, string))
    requires IsDigit(Head(s))
    ensures |r.1| < |s|
  {
    var n := Span(s, IsDigit);
    var u := s[n..];
    if Head(u) == '.' && IsDigit(Second(u)) then
      var m := Span(u[1..], IsDigit);
      (Num(Decimal(s[..n], u[1..][..m])), u[1..][m..])
    else
      (Num(Decimal(s[..n], "")), u)
  }

  /** A quoted string, given the text after its opening quote; the quotes are not part of it. */
  function ScanString(s: string): (r: (Token, string))
    ensures |r.1| <= |s|
  {
    var n := Span(s, IsStringBody);
    if Head(s[n..]) == '"' then (Str(s[..n]), s[n + 1..]) else (Error, s[n..])
  }

  /** An operator or a punctuation mark. */
  function ScanSymbol(s: string): (r: (Token, string))
    requires s != ""
    ensures r.0 != Eof && |r.1| < |s|
  {
    var c := s[0];
    if c == '=' && Second(s) == '=' then (EqEq, s[2..])
    else if c == '!' && Second(s) == '=' then (NotEq, s[2..])
    else if c == '<' && Second(s) == '=' then (LessEq, s[2..])
    else if c == '>' && Second(s) == '=' then (GreaterEq, s[2..])
    else (Symbol(c), s[1..])
  }

  function Symbol(c: char): (t: Token)
    ensures t != Eof
  {
    if c == '<' then Less
    else if c == '>' then Greater
    else if c == ':' then Colon
    else if c == '(' then LParen
    else if c == ')' then RParen
    else if c == '[' then LBracket
    else if c == ']' then RBracket
    else if c == ',' then Comma
    else Error
  }

  /** The token that starts `s` (which begins with no space) and the text after it. */
  function Scan(s: string): (r: (Token, string))
    ensures r.0 != Eof ==> |r.1| < |s|
    ensures r.0 == Eof ==> r.1 == s
  {
    var c := Head(s);
    if c == '\0' then (Eof, s)
    else if IsIdentStart(c) then var n := Span(s, IsIdentCont); (Ident(s[..n]), s[n..])
    else if IsDigit(c) then ScanNumber(s)
    else if c == '"' then ScanString(s[1..])
    else ScanSymbol(s)
  }

  /** The next token of `s`, spaces skipped, and the text after it. */
  function Next(s: string): (r: (Token, string))
    ensures r.0 != Eof ==> |r.1| < |s|
    ensures |r.1| <= |s|
  {
    Scan(s[Span(s, IsSpace)..])
  }

  /** Every token of `s` up to the end of the text. */
  function Tokens(s: string): seq<Token>
    decreases |s|
  {
    var (t, rest) := Next(s);
    if t == Eof then [] else [t] + Tokens(rest)
  }

  // ---- the scanner itself -----------------------------------------------------------

  lemma SpanIs(s: string, p: char -> bool, n: nat)
    requires n <= |s| && (forall i :: 0 <= i < n ==> p(s[i])) && (n < |s| ==> !p(s[n]))
    ensures Span(s, p) == n
  {
  }

  lemma DigitsValueSnoc(s: string, c: char)
    requires AllDigits(s) && IsDigit(c)
    ensures AllDigits(s + [c]) && DigitsValue(s + [c]) == 10 * DigitsValue(s) + DigitValue(c)
  {
    assert (s + [c])[..|s|] == s;
  }

  /** What the scanner's three accumulators hold once it has read the digits `whole` and,
      after the point, `frac`. */
  ghost predicate Accumulated(whole: string, frac: string, value: real, part: real, scale: real) {
    && AllDigits(whole) && AllDigits(frac)
    && value == DigitsValue(whole) as real
    && scale == Pow10(|frac|) as real
    && part * scale == DigitsValue(frac) as real
  }

  lemma AccumulateFraction(whole: string, frac: string, c: char, value: real, part: real, scale: real)
    requires Accumulated(whole, frac, value, part, scale) && IsDigit(c)
    ensures Accumulated(whole, frac + [c], value, part + DigitValue(c) as real / (scale * 10.0), scale * 10.0)
  {
    DigitsValueSnoc(frac, c);
    assert Pow10(|frac + [c]|) == 10 * Pow10(|frac|);
    ScaleStep(part, scale, DigitValue(c) as real);
  }

  /** The body of the scanner's accumulation loop, for a digit. */
  method AddDigit(c: char, inFrac: bool, value: real, part: real, scale: real,
                  ghost whole: string, ghost frac: string)
    returns (value': real, part': real, scale': real)
    requires IsDigit(c) && Accumulated(whole, frac, value, part, scale)
    ensures inFrac ==> Accumulated(whole, frac + [c], value', part', scale')
    ensures !inFrac && frac == "" ==> Accumulated(whole + [c], frac, value', part', scale')
  {
    value', part', scale' := value, part, scale;
    if inFrac {
      AccumulateFraction(whole, frac, c, value, part, scale);
      scale' := scale * 10.0;
      part' := part + (c as int - '0' as int) as real / scale';
    } else {
      DigitsValueSnoc(whole, c);
      value' := value * 10.0 + (c as int - '0' as int) as real;
    }
  }

  lemma ScaleStep(part: real, scale: real, d: real)
    requires scale >= 1.0
    ensures (part + d / (scale * 10.0)) * (scale * 10.0) == 10.0 * (part * scale) + d
  {
    var q := scale * 10.0;
    assert (d / q) * q == d;
    assert part * q == 10.0 * (part * scale);
  }

  method Total(value: real, part: real, ghost scale: real, ghost whole: string, ghost frac: string) returns (n: real)
    requires Accumulated(whole, frac, value, part, scale)
    ensures n == Decimal(whole, frac)
  {
    Quotient(part, DigitsValue(frac) as real, scale);
    n := value + part;
  }

  lemma Quotient(x: real, n: real, q: real)
    requires q != 0.0 && x * q == n
    ensures x == n / q
  {
  }

  /** The text of a literal with the digits `whole` and, if it has a point, `frac` after it. */
  ghost function Literal(whole: string, frac: string, point: bool): string {
    if point then whole + ['.'] + frac else whole
  }

  /** The value of a literal, accumulated digit by digit with the whole and fractional parts
      kept apart. */
  method LiteralValue(text: string, ghost whole: string, ghost frac: string, ghost point: bool)
    returns (number: real)
    requires AllDigits(whole) && AllDigits(frac) && (!point ==> frac == "")
    requires text == Literal(whole, frac, point)
    ensures number == Decimal(whole, frac)
  {
    var value, part, scale, inFrac := 0.0, 0.0, 1.0, false;
    ghost var w, f := "", "";
    var q := 0;
    while q < |text|
      invariant q <= |text| && inFrac == (|whole| < q)
      invariant |w| == (if inFrac then |whole| else q) && w <= whole
      invariant |f| == (if inFrac then q - |whole| - 1 else 0) && f <= frac
      invariant Accumulated(w, f, value, part, scale)
    {
      var c := text[q];
      if c == '.' {
        assert q == |whole|;
        inFrac := true;
      } else {
        value, part, scale := AddDigit(c, inFrac, value, part, scale, w, f);
        if inFrac { f := f + [c]; } else { w := w + [c]; }
      }
      q := q + 1;
    }
    assert w == whole && f == frac;
    number := Total(value, part, scale, whole, frac);
  }

  /** The span of `a + b` is all of `a`, when `b` does not go on with it. */
  lemma SpanOf(a: string, b: string, p: char -> bool)
    requires (forall i :: 0 <= i < |a| ==> p(a[i])) && !p(Head(b))
    ensures Span(a + b, p) == |a| && (a + b)[..|a|] == a && (a + b)[|a|..] == b
  {
    SpanIs(a + b, p, |a|);
  }

  lemma ScanInteger(whole: string, rest: string)
    requires whole != "" && AllDigits(whole) && !IsDigit(Head(rest))
    requires Head(rest) != '.' || !IsDigit(Second(rest))
    ensures ScanNumber(whole + rest) == (Num(Decimal(whole, "")), rest)
  {
    SpanOf(whole, rest, IsDigit);
  }

  lemma ScanPointed(whole: string, frac: string, rest: string)
    requires whole != "" && AllDigits(whole) && frac != "" && AllDigits(frac) && !IsDigit(Head(rest))
    ensures ScanNumber(whole + (['.'] + (frac + rest))) == (Num(Decimal(whole, frac)), rest)
  {
    SpanOf(whole, ['.'] + (frac + rest), IsDigit);
    SpanOf(frac, rest, IsDigit);
    assert (['.'] + (frac + rest))[1..] == frac + rest;
  }

  class Lexer {
    const src: string
    var cur: nat

    ghost predicate Valid()
      reads this
    {
      cur <= |src|
    }

    ghost function Rest(): string
      reads this
      requires Valid()
    {
      src[cur..]
    }

    constructor (text: string)
      ensures src == text && cur == 0 && Valid()
    {
      src, cur := text, 0;
    }

    /** `*(src + i)`: the byte at index `i`, with the terminator at the end. */
    function At(i: nat): (c: char)
      ensures i <= |src| ==> c == Head(src[i..])
    {
      if i < |src| then src[i] else '\0'
    }

    lemma SliceFrom(i: nat, j: nat)
      requires i <= j <= |src|
      ensures src[i..][..j - i] == src[i..j] && src[i..][j - i..] == src[j..]
    {
    }

    /** One of the scanner's `while (is_x(*p)) p++` loops. */
    method ScanWhile(start: nat, p: char -> bool) returns (end: nat)
      requires start <= |src| && !p('\0')
      ensures start <= end <= |src|
      ensures end - start == Span(src[start..], p)
    {
      end := start;
      while p(At(end))
        invariant start <= end <= |src|
        invariant forall i :: start <= i < end ==> p(src[i])
        decreases |src| - end
      {
        end := end + 1;
      }
      SpanIs(src[start..], p, end - start);
    }

    /** The number case of NextToken. */
    method NextNumber() returns (t: Token)
      requires Valid() && IsDigit(Head(Rest()))
      modifies this
      ensures Valid()
      ensures (t, Rest()) == ScanNumber(old(Rest()))
    {
      var s := cur;
      var p := ScanWhile(s, IsDigit);
      ghost var dot := p;
      ghost var frac := "";
      SpannedDigits(s, p);
      var point := At(p) == '.' && IsDigit(At(p + 1));
      if point {
        p := ScanWhile(p + 1, IsDigit);
        frac := src[dot + 1..p];
        PointedAt(s, dot, p);
      } else {
        IntegerAt(s, p);
      }
      var number := LiteralValue(src[s..p], src[s..dot], frac, point);
      cur := p;
      t := Num(number);
    }

    lemma IntegerAt(s: nat, p: nat)
      requires s < p <= |src| && p - s == Span(src[s..], IsDigit)
      requires !(Head(src[p..]) == '.' && IsDigit(Second(src[p..])))
      ensures AllDigits(src[s..p]) && ScanNumber(src[s..]) == (Num(Decimal(src[s..p], "")), src[p..])
    {
      SpannedDigits(s, p);
      ScanInteger(src[s..p], src[p..]);
      assert src[s..] == src[s..p] + src[p..];
    }

    lemma PointedAt(s: nat, dot: nat, p: nat)
      requires s < dot < p <= |src| && dot - s == Span(src[s..], IsDigit)
      requires p - dot - 1 == Span(src[dot + 1..], IsDigit)
      requires src[dot] == '.' && IsDigit(Head(src[dot + 1..]))
      ensures AllDigits(src[s..dot]) && AllDigits(src[dot + 1..p])
      ensures src[s..p] == Literal(src[s..dot], src[dot + 1..p], true)
      ensures ScanNumber(src[s..]) == (Num(Decimal(src[s..dot], src[dot + 1..p])), src[p..])
    {
      SpannedDigits(s, dot);
      SpannedDigits(dot + 1, p);
      SplitAtPoint(s, dot, p);
      assert src[dot + 1..p] != "" by {
        SpanIs(src[dot + 1..], IsDigit, p - dot - 1);
      }
      ScanPointed(src[s..dot], src[dot + 1..p], src[p..]);
    }

    lemma SplitAtPoint(s: nat, dot: nat, p: nat)
      requires s <= dot < p <= |src| && src[dot] == '.'
      ensures src[s..p] == src[s..dot] + ['.'] + src[dot + 1..p]
      ensures src[s..] == src[s..dot] + (['.'] + (src[dot + 1..p] + src[p..]))
    {
      assert src[dot + 1..] == src[dot + 1..p] + src[p..];
      assert src[dot..] == ['.'] + src[dot + 1..];
    }

    lemma SpannedDigits(i: nat, j: nat)
      requires i <= j <= |src| && j - i == Span(src[i..], IsDigit)
      ensures AllDigits(src[i..j]) && !IsDigit(Head(src[j..]))
    {
      forall k | 0 <= k < j - i ensures IsDigit(src[i..j][k]) {
        assert src[i..j][k] == src[i..][k];
      }
      assert j < |src| ==> src[i..][j - i] == src[j];
    }

    /** The string case of NextToken. */
    method NextString() returns (t: Token)
      requires Valid() && cur < |src|
      modifies this
      ensures Valid()
      ensures (t, Rest()) == ScanString(old(Rest())[1..])
    {
      var s := cur + 1;
      var p := ScanWhile(s, IsStringBody);
      assert src[cur..][1..] == src[s..];
      SliceFrom(s, p);
      if At(p) != '"' {
        cur := p; // hit the end of the text
        return Error;
      }
      assert src[s..][p - s + 1..] == src[p + 1..];
      cur := p + 1; // consume the closing quote
      t := Str(src[s..p]);
    }

    /** The operator and punctuation cases of NextToken. */
    method NextSymbol() returns (t: Token)
      requires Valid() && cur < |src|
      modifies this
      ensures Valid()
      ensures (t, Rest()) == ScanSymbol(old(Rest()))
    {
      var s := cur;
      assert src[s..][1..] == src[s + 1..];
      assert s + 2 <= |src| ==> src[s..][2..] == src[s + 2..];
      var second := At(s + 1);
      cur := s + 1;
      match src[s] {
        case '=' => if second == '=' { cur := s + 2; return EqEq; } return Error;
        case '!' => if second == '=' { cur := s + 2; return NotEq; } return Error;
        case '<' => if second == '=' { cur := s + 2; return LessEq; } return Less;
        case '>' => if second == '=' { cur := s + 2; return GreaterEq; } return Greater;
        case ':' => return Colon;
        case '(' => return LParen;
        case ')' => return RParen;
        case '[' => return LBracket;
        case ']' => return RBracket;
        case ',' => return Comma;
        case _ => return Error;
      }
    }

    /** vault_lexer_next: produce the next token and move `cur` past it. */
    method NextToken() returns (t: Token)
      requires Valid()
      modifies this
      ensures Valid()
      ensures (t, Rest()) == Next(old(Rest()))
    {
      ghost var before := Rest();
      cur := ScanWhile(cur, IsSpace);
      assert Rest() == before[Span(before, IsSpace)..];
      var c := At(cur);
      if c == '\0' {
        return Eof;
      }
      if IsIdentStart(c) {
        var s := cur;
        cur := ScanWhile(s, IsIdentCont);
        SliceFrom(s, cur);
        return Ident(src[s..cur]);
      }
      if IsDigit(c) {
        t := NextNumber();
      } else if c == '"' {
        t := NextString();
      } else {
        t := NextSymbol();
      }
    }
  }
}
