/** The texts of a token sequence, character by character: the lexical grammar of the policy
    language, written out without the lexer's own functions. */
module VaultLayout {
  import opened Options
  import opened VaultAst
  import opened VaultLexer
  import opened VaultGrammar
  import opened VaultParser
  import opened VaultParserCorrect
  import opened VaultPrinter
  import VaultCutting

  // ---- the lexical grammar ----------------------------------------------------------

  predicate IsGap(c: char) {
    c == ' ' || c == '\t' || c == '\r' || c == '\n'
  }

  predicate IsLetter(c: char) {
    'a' <= c <= 'z' || 'A' <= c <= 'Z' || c == '_'
  }

  predicate IsNumeral(c: char) {
    '0' <= c <= '9'
  }

  predicate AreGaps(s: string) {
    forall i :: 0 <= i < |s| ==> IsGap(s[i])
  }

  predicate AreNumerals(s: string) {
    s != "" && forall i :: 0 <= i < |s| ==> IsNumeral(s[i])
  }

  predicate IsWord(s: string) {
    s != "" && IsLetter(s[0]) && forall i :: 0 <= i < |s| ==> IsLetter(s[i]) || IsNumeral(s[i])
  }

  function NumeralValue(c: char): nat {
    match c
    case '1' => 1
    case '2' => 2
    case '3' => 3
    case '4' => 4
    case '5' => 5
    case '6' => 6
    case '7' => 7
    case '8' => 8
    case '9' => 9
    case _ => 0
  }

  function Whole(s: string): nat {
    if s == "" then 0 else 10 * Whole(s[..|s| - 1]) + NumeralValue(s[|s| - 1])
  }

  /** The digits after a point, the first of which counts tenths. */
  function Fraction(s: string): real {
    if s == "" then 0.0 else (NumeralValue(s[0]) as real + Fraction(s[1..])) / 10.0
  }

  /** `whole.frac`. */
  predicate IsPointed(word: string, whole: string, frac: string) {
    word == whole + (['.'] + frac) && AreNumerals(whole) && AreNumerals(frac)
  }

  ghost predicate SpellsNumber(word: string, x: real) {
    || (AreNumerals(word) && x == Whole(word) as real)
    || (exists whole, frac :: IsPointed(word, whole, frac) && x == Whole(whole) as real + Fraction(frac))
  }

  predicate IsQuotable(s: string) {
    forall i :: 0 <= i < |s| ==> s[i] != '"' && s[i] != '\0'
  }

  /** The characters of one token. */
  ghost predicate Spells(word: string, t: Token) {
    match t
    case Ident(s) => word == s && IsWord(s)
    case Num(x) => SpellsNumber(word, x)
    case Str(s) => word == ['"'] + s + ['"'] && IsQuotable(s)
    case Colon => word == ":"
    case LParen => word == "("
    case RParen => word == ")"
    case LBracket => word == "["
    case RBracket => word == "]"
    case Comma => word == ","
    case EqEq => word == "=="
    case NotEq => word == "!="
    case Less => word == "<"
    case LessEq => word == "<="
    case Greater => word == ">"
    case GreaterEq => word == ">="
    case Eof => false
    case Error => false
  }

  /** What follows a word and would be read as more of it. */
  predicate GoesOn(word: string, rest: string)
    requires word != ""
  {
    if IsLetter(word[0]) then rest != "" && (IsLetter(rest[0]) || IsNumeral(rest[0]))
    else if IsNumeral(word[0]) then
      || (rest != "" && IsNumeral(rest[0]))
      || ('.' !in word && |rest| >= 2 && rest[0] == '.' && IsNumeral(rest[1]))
    else (word == "<" || word == ">") && rest != "" && rest[0] == '='
  }

  /** A text that begins with a gap and the characters of a token, and does not go on with it. */
  ghost predicate Begins(text: string, gap: string, word: string, rest: string, t: Token) {
    text == gap + (word + rest) && AreGaps(gap) && Spells(word, t) && word != "" && !GoesOn(word, rest)
  }

  /** Nothing but gaps up to the end of the text, which a zero character ends early. */
  ghost predicate IsBlank(text: string) {
    exists n :: 0 <= n <= |text| && AreGaps(text[..n]) && (n == |text| || text[n] == '\0')
  }

  /** The text is made of these tokens, in order, with gaps anywhere between them. Where two tokens
      would be read as one there must be a gap. */
  ghost predicate LaidOut(text: string, ts: seq<Token>)
    decreases |ts|
  {
    if ts == [] then IsBlank(text)
    else exists gap, word, rest :: Begins(text, gap, word, rest, ts[0]) && LaidOut(rest, ts[1..])
  }

  // ---- numbers ----------------------------------------------------------------------

  lemma {:induction false} WholeIs(s: string)
    requires AllDigits(s)
    ensures DigitsValue(s) == Whole(s)
  {
    if s != "" {
      WholeIs(s[..|s| - 1]);
    }
  }

  lemma {:induction false} DigitsFront(c: char, s: string)
    requires IsDigit(c) && AllDigits(s)
    ensures AllDigits([c] + s) && DigitsValue([c] + s) == DigitValue(c) * Pow10(|s|) + DigitsValue(s)
  {
    var all := [c] + s;
    if s != "" {
      var n := |s| - 1;
      DigitsFront(c, s[..n]);
      assert all[..|all| - 1] == [c] + s[..n];
      FrontStep(DigitValue(c), Pow10(n), DigitsValue(s[..n]), DigitValue(s[n]));
    } else {
      assert all[..0] == "";
    }
  }

  lemma FrontStep(d: nat, p: nat, v: nat, last: nat)
    ensures 10 * (d * p + v) + last == d * (10 * p) + (10 * v + last)
  {
  }

  lemma {:induction false} FractionIs(s: string)
    requires AllDigits(s)
    ensures DigitsValue(s) as real / Pow10(|s|) as real == Fraction(s)
    decreases |s|
  {
    if s != "" {
      var rest, p := s[1..], Pow10(|s| - 1);
      FractionIs(rest);
      DigitsFront(s[0], rest);
      assert s == [s[0]] + rest;
      assert DigitsValue(s) == DigitValue(s[0]) * p + DigitsValue(rest);
      TenthsStep(DigitValue(s[0]), p, DigitsValue(rest), Fraction(rest));
    }
  }

  lemma TenthsStep(d: nat, p: nat, v: nat, f: real)
    requires p >= 1 && v as real / p as real == f
    ensures (d * p + v) as real / (10 * p) as real == (d as real + f) / 10.0
  {
    var q := p as real;
    assert v as real == f * q;
    assert (d * p) as real == d as real * q by {
      ProductAsReal(d, p);
    }
    assert (d as real * q + f * q) == ((d as real + f) / 10.0) * (10.0 * q);
    Quotient((d as real + f) / 10.0, (d * p + v) as real, 10.0 * q);
  }

  lemma {:induction false} ProductAsReal(d: nat, p: nat)
    ensures (d * p) as real == d as real * p as real
  {
    if d > 0 {
      ProductAsReal(d - 1, p);
      assert d * p == (d - 1) * p + p;
    }
  }

  lemma DecimalIs(whole: string, frac: string)
    requires AllDigits(whole) && AllDigits(frac)
    ensures Decimal(whole, frac) == Whole(whole) as real + Fraction(frac)
  {
    WholeIs(whole);
    FractionIs(frac);
  }

  // ---- one word is one token --------------------------------------------------------

  lemma WordScans(word: string, rest: string)
    requires IsWord(word) && !GoesOn(word, rest)
    ensures Scan(word + rest) == (Ident(word), rest)
  {
    SpanOf(word, rest, IsIdentCont);
  }

  lemma NumeralsAreDigits(s: string)
    ensures AreNumerals(s) <==> s != "" && AllDigits(s)
  {
  }

  lemma NumberIsScanned(s: string, t: Token, rest: string)
    requires IsDigit(Head(s)) && ScanNumber(s) == (t, rest)
    ensures Scan(s) == (t, rest)
  {
  }

  lemma IntegerScans(word: string, rest: string)
    requires AreNumerals(word) && !(rest != "" && IsNumeral(rest[0]))
    requires !(|rest| >= 2 && rest[0] == '.' && IsNumeral(rest[1]))
    ensures Scan(word + rest) == (Num(Whole(word) as real), rest)
  {
    NumeralsAreDigits(word);
    DecimalIs(word, "");
    ScanInteger(word, rest);
    assert Head(word + rest) == word[0];
    NumberIsScanned(word + rest, Num(Whole(word) as real), rest);
  }

  lemma PointedScans(whole: string, frac: string, rest: string) returns (s: string)
    requires AreNumerals(whole) && AreNumerals(frac) && !(rest != "" && IsNumeral(rest[0]))
    ensures s == whole + (['.'] + (frac + rest))
    ensures Scan(s) == (Num(Whole(whole) as real + Fraction(frac)), rest)
  {
    s := whole + (['.'] + (frac + rest));
    NumeralsAreDigits(whole);
    NumeralsAreDigits(frac);
    DecimalIs(whole, frac);
    ScanPointed(whole, frac, rest);
    assert Head(s) == whole[0];
    NumberIsScanned(s, Num(Whole(whole) as real + Fraction(frac)), rest);
  }

  lemma PointedJoins(word: string, whole: string, frac: string, rest: string)
    requires IsPointed(word, whole, frac)
    ensures word + rest == whole + (['.'] + (frac + rest)) && word != "" && word[0] == whole[0] && '.' in word
  {
    assert word[|whole|] == '.';
  }

  lemma NumeralsHaveNoPoint(word: string)
    requires AreNumerals(word)
    ensures '.' !in word
  {
  }

  lemma IntegerWordScans(word: string, rest: string)
    requires AreNumerals(word) && !GoesOn(word, rest)
    ensures Scan(word + rest) == (Num(Whole(word) as real), rest) && IsNumeral(word[0])
  {
    NumeralsHaveNoPoint(word);
    IntegerScans(word, rest);
  }

  lemma PointedWordScans(word: string, whole: string, frac: string, rest: string)
    requires IsPointed(word, whole, frac) && word != "" && !GoesOn(word, rest)
    ensures Scan(word + rest) == (Num(Whole(whole) as real + Fraction(frac)), rest) && IsNumeral(word[0])
  {
    PointedJoins(word, whole, frac, rest);
    var s := PointedScans(whole, frac, rest);
  }

  lemma PointedParts(word: string, x: real) returns (whole: string, frac: string)
    requires SpellsNumber(word, x) && !(AreNumerals(word) && x == Whole(word) as real)
    ensures IsPointed(word, whole, frac) && x == Whole(whole) as real + Fraction(frac)
  {
    whole, frac :| IsPointed(word, whole, frac) && x == Whole(whole) as real + Fraction(frac);
  }

  lemma NumberScans(word: string, rest: string, x: real)
    requires SpellsNumber(word, x) && word != "" && !GoesOn(word, rest)
    ensures Scan(word + rest) == (Num(x), rest) && IsNumeral(word[0])
  {
    if AreNumerals(word) && x == Whole(word) as real {
      IntegerWordScans(word, rest);
    } else {
      var whole, frac := PointedParts(word, x);
      PointedWordScans(word, whole, frac, rest);
    }
  }

  lemma StringScans(s: string, rest: string)
    requires IsQuotable(s)
    ensures Scan(['"'] + s + ['"'] + rest) == (Str(s), rest)
  {
    ScanQuoted(s, rest);
  }

  lemma SymbolScans(word: string, rest: string, t: Token)
    requires Spells(word, t) && word != "" && !GoesOn(word, rest) && !t.Ident? && !t.Num? && !t.Str?
    ensures Scan(word + rest) == (t, rest)
  {
    var s := word + rest;
    assert |word| == 1 ==> s[1..] == rest;
    assert |word| == 2 ==> s[2..] == rest;
  }

  /** The characters of a token are scanned as that token. */
  lemma SpelledScans(word: string, rest: string, t: Token)
    requires Spells(word, t) && word != "" && !GoesOn(word, rest)
    ensures Scan(word + rest) == (t, rest) && !IsGap(word[0]) && word[0] != '\0'
  {
    match t {
      case Ident(_) => WordScans(word, rest);
      case Num(x) => NumberScans(word, rest, x);
      case Str(s) => StringScans(s, rest);
      case _ => SymbolScans(word, rest, t);
    }
  }

  // ---- one token is one word --------------------------------------------------------

  lemma ScannedWord(s: string) returns (word: string)
    requires IsIdentStart(Head(s))
    ensures IsWordOf(word, s, Scan(s).0, Scan(s).1)
  {
    var n := Span(s, IsIdentCont);
    word := s[..n];
    assert n < |s| ==> s[n..][0] == s[n];
  }

  /** The digits that begin a text, and what follows them. */
  lemma DigitsBegin(s: string) returns (whole: string, rest: string)
    requires IsDigit(Head(s))
    ensures s == whole + rest && AreNumerals(whole) && !(rest != "" && IsNumeral(rest[0]))
  {
    var n := Span(s, IsDigit);
    whole, rest := s[..n], s[n..];
  }

  /** A word that spells what a scan read. */
  ghost predicate IsWordOf(word: string, s: string, t: Token, rest: string) {
    s == word + rest && Spells(word, t) && word != "" && !GoesOn(word, rest)
  }

  lemma ScannedInteger(word: string, rest: string)
    requires AreNumerals(word) && !(rest != "" && IsNumeral(rest[0]))
    requires !(|rest| >= 2 && rest[0] == '.' && IsNumeral(rest[1]))
    ensures IsWordOf(word, word + rest, Scan(word + rest).0, Scan(word + rest).1)
  {
    IntegerScans(word, rest);
  }

  lemma ScannedPointed(whole: string, frac: string, rest: string) returns (word: string, s: string)
    requires AreNumerals(whole) && AreNumerals(frac) && !(rest != "" && IsNumeral(rest[0]))
    ensures s == whole + (['.'] + (frac + rest)) && IsWordOf(word, s, Scan(s).0, Scan(s).1)
  {
    s := PointedScans(whole, frac, rest);
    word := whole + (['.'] + frac);
    assert IsPointed(word, whole, frac);
    PointedJoins(word, whole, frac, rest);
  }

  lemma ScannedNumber(s: string) returns (word: string)
    requires IsDigit(Head(s))
    ensures IsWordOf(word, s, Scan(s).0, Scan(s).1)
  {
    var whole, rest := DigitsBegin(s);
    if |rest| >= 2 && rest[0] == '.' && IsNumeral(rest[1]) {
      var frac, after := DigitsBegin(rest[1..]);
      assert rest == ['.'] + (frac + after);
      var s';
      word, s' := ScannedPointed(whole, frac, after);
    } else {
      ScannedInteger(whole, rest);
      word := whole;
    }
  }

  lemma ScannedString(s: string) returns (word: string)
    requires Head(s) == '"' && Scan(s).0 != Error
    ensures IsWordOf(word, s, Scan(s).0, Scan(s).1)
  {
    var n := Span(s[1..], IsStringBody);
    word := s[..n + 2];
    assert s[1..][n] == '"';
    assert word == ['"'] + s[1..][..n] + ['"'];
    assert s[1..][n + 1..] == s[n + 2..];
  }

  lemma ScannedSymbol(s: string) returns (word: string)
    requires s != "" && Scan(s) == ScanSymbol(s) && Scan(s).0 != Error
    requires !IsIdentStart(s[0]) && !IsDigit(s[0])
    ensures IsWordOf(word, s, Scan(s).0, Scan(s).1)
  {
    word := s[..|s| - |Scan(s).1|];
    assert |word| == 1 ==> word == [s[0]];
    assert |word| == 2 ==> word == [s[0], s[1]];
  }

  /** A token that is scanned and is no error has the characters that were read. */
  lemma ScannedSpells(s: string) returns (word: string)
    requires Scan(s).0 != Eof && Scan(s).0 != Error
    ensures IsWordOf(word, s, Scan(s).0, Scan(s).1)
  {
    var c := Head(s);
    if IsIdentStart(c) {
      word := ScannedWord(s);
    } else if IsDigit(c) {
      word := ScannedNumber(s);
    } else if c == '"' {
      word := ScannedString(s);
    } else {
      word := ScannedSymbol(s);
    }
  }

  // ---- whole texts ------------------------------------------------------------------

  lemma GapsAreSkipped(gap: string, rest: string)
    requires AreGaps(gap) && !(rest != "" && IsGap(rest[0]))
    ensures Next(gap + rest) == Scan(rest)
  {
    SpanOf(gap, rest, IsSpace);
  }

  lemma GapsBegin(text: string) returns (gap: string, rest: string)
    ensures text == gap + rest && AreGaps(gap) && !(rest != "" && IsGap(rest[0]))
  {
    var n := Span(text, IsSpace);
    gap, rest := text[..n], text[n..];
  }

  lemma BeginsIsNext(text: string, gap: string, word: string, rest: string, t: Token)
    requires Begins(text, gap, word, rest, t)
    ensures Next(text) == (t, rest) && t != Eof && t != Error
  {
    SpelledScans(word, rest, t);
    assert (word + rest)[0] == word[0];
    GapsAreSkipped(gap, word + rest);
  }

  lemma NextBegins(text: string, t: Token, rest: string) returns (gap: string, word: string)
    requires Next(text) == (t, rest) && t != Eof && t != Error
    ensures Begins(text, gap, word, rest, t)
  {
    var s;
    gap, s := GapsBegin(text);
    GapsAreSkipped(gap, s);
    word := ScannedSpells(s);
  }

  lemma ScanEnds(s: string)
    ensures Scan(s).0 == Eof <==> s == "" || s[0] == '\0'
  {
  }

  lemma BlankIsTheEnd(text: string)
    ensures Next(text).0 == Eof <==> IsBlank(text)
  {
    var gap, rest := GapsBegin(text);
    GapsAreSkipped(gap, rest);
    ScanEnds(rest);
    BlankIs(text, gap, rest);
  }

  lemma BlankIs(text: string, gap: string, rest: string)
    requires text == gap + rest && AreGaps(gap) && !(rest != "" && IsGap(rest[0]))
    ensures IsBlank(text) <==> rest == "" || rest[0] == '\0'
  {
    assert text[..|gap|] == gap && text[|gap|..] == rest;
    if rest == "" || rest[0] == '\0' {
      assert AreGaps(text[..|gap|]);
    }
    if IsBlank(text) {
      var n :| 0 <= n <= |text| && AreGaps(text[..n]) && (n == |text| || text[n] == '\0');
      assert n < |gap| ==> IsGap(gap[n]) && text[n] == gap[n];
      assert |gap| < n ==> text[..n][|gap|] == rest[0];
    }
  }

  lemma TokensUnfold(text: string, t: Token, rest: string)
    requires Next(text) == (t, rest)
    ensures Tokens(text) == if t == Eof then [] else [t] + Tokens(rest)
  {
  }

  lemma LaidOutParts(text: string, ts: seq<Token>) returns (gap: string, word: string, rest: string)
    requires LaidOut(text, ts) && ts != []
    ensures Begins(text, gap, word, rest, ts[0]) && LaidOut(rest, ts[1..])
  {
    gap, word, rest :| Begins(text, gap, word, rest, ts[0]) && LaidOut(rest, ts[1..]);
  }

  lemma LaidOutStep(text: string, ts: seq<Token>) returns (rest: string)
    requires LaidOut(text, ts) && ts != []
    ensures |rest| < |text| && LaidOut(rest, ts[1..]) && ts[0] != Error && Tokens(text) == [ts[0]] + Tokens(rest)
  {
    var gap, word;
    gap, word, rest := LaidOutParts(text, ts);
    BeginsIsNext(text, gap, word, rest, ts[0]);
    TokensUnfold(text, ts[0], rest);
  }

  lemma {:induction false} LaidOutLexes(text: string, ts: seq<Token>)
    requires LaidOut(text, ts)
    ensures Tokens(text) == ts && Error !in ts
    decreases |ts|
  {
    if ts == [] {
      BlankIsTheEnd(text);
    } else {
      var rest := LaidOutStep(text, ts);
      LaidOutLexes(rest, ts[1..]);
      assert ts == [ts[0]] + ts[1..];
    }
  }

  lemma {:induction false} LexedIsLaidOut(text: string)
    requires Error !in Tokens(text)
    ensures LaidOut(text, Tokens(text))
    decreases |text|
  {
    var (t, rest) := Next(text);
    TokensUnfold(text, t, rest);
    if t == Eof {
      BlankIsTheEnd(text);
    } else {
      var ts := Tokens(text);
      assert ts[0] == t && ts[1..] == Tokens(rest);
      LexedIsLaidOut(rest);
      var gap, word := NextBegins(text, t, rest);
    }
  }

  /** A text is read without an error as exactly the tokens that it is laid out of, so no character
      is skipped but the four that make a gap. */
  lemma LexesIffLaidOut(text: string, ts: seq<Token>)
    ensures Tokens(text) == ts && Error !in ts <==> LaidOut(text, ts)
  {
    if LaidOut(text, ts) {
      LaidOutLexes(text, ts);
    }
    if Tokens(text) == ts && Error !in ts {
      LexedIsLaidOut(text);
    }
  }

  /** A text is a policy exactly if it is laid out of tokens that the grammar derives it from. */
  lemma ParsesIffLaidOut(text: string, p: Policy)
    ensures Parse(text) == Some(p) <==> exists ts :: LaidOut(text, ts) && DerivesPolicy(p, ts)
  {
    if Parse(text) == Some(p) {
      ParsesTheGrammar(text, p);
      var last := VaultCutting.PolicySums(p, Tokens(text));
      LexesIffLaidOut(text, Tokens(text));
    }
    if exists ts :: LaidOut(text, ts) && DerivesPolicy(p, ts) {
      var ts :| LaidOut(text, ts) && DerivesPolicy(p, ts);
      LexesIffLaidOut(text, ts);
      ParsesTheGrammar(text, p);
    }
  }

  // ---- any gaps ---------------------------------------------------------------------

  /** The words with a gap in front of each and one at the end. */
  function Joined(words: seq<string>, gaps: seq<string>): string
    requires |gaps| == |words| + 1
  {
    if words == [] then gaps[0] else gaps[0] + (words[0] + Joined(words[1..], gaps[1..]))
  }

  ghost predicate AreWords(words: seq<string>, ts: seq<Token>) {
    |words| == |ts| && forall i :: 0 <= i < |words| ==> words[i] != "" && Spells(words[i], ts[i])
  }

  ghost predicate AreAllGaps(gaps: seq<string>) {
    forall i :: 0 <= i < |gaps| ==> AreGaps(gaps[i])
  }

  /** Between two words there is a gap. */
  ghost predicate AreApart(gaps: seq<string>) {
    forall i :: 0 < i < |gaps| - 1 ==> gaps[i] != ""
  }

  lemma GapEndsWord(word: string, rest: string)
    requires word != "" && (rest == "" || IsGap(rest[0]))
    ensures !GoesOn(word, rest)
  {
  }

  lemma JoinedStartsWithGap(words: seq<string>, gaps: seq<string>)
    requires |gaps| == |words| + 1 && AreAllGaps(gaps) && (words == [] || gaps[0] != "")
    ensures Joined(words, gaps) == "" || IsGap(Joined(words, gaps)[0])
  {
    assert AreGaps(gaps[0]);
  }

  lemma {:induction false} JoinedIsLaidOut(words: seq<string>, ts: seq<Token>, gaps: seq<string>)
    requires AreWords(words, ts) && |gaps| == |words| + 1 && AreAllGaps(gaps) && AreApart(gaps)
    ensures LaidOut(Joined(words, gaps), ts)
    decreases |ts|
  {
    assert AreGaps(gaps[0]);
    if ts == [] {
      var text := gaps[0];
      assert text[..|text|] == text;
    } else {
      var rest := Joined(words[1..], gaps[1..]);
      JoinedIsLaidOut(words[1..], ts[1..], gaps[1..]);
      JoinedStartsWithGap(words[1..], gaps[1..]);
      GapEndsWord(words[0], rest);
      assert Begins(Joined(words, gaps), gaps[0], words[0], rest, ts[0]);
    }
  }

  /** Every way to write a policy's tokens, with any gaps of spaces, tabs, carriage returns and
      newlines between them, is read back as the policy. */
  lemma AnyLayoutParses(p: Policy, words: seq<string>, gaps: seq<string>)
    requires IsBuildable(p) && AreWords(words, PrintPolicy(p)) && |gaps| == |words| + 1
    requires AreAllGaps(gaps) && AreApart(gaps)
    ensures Tokens(Joined(words, gaps)) == PrintPolicy(p) && Parse(Joined(words, gaps)) == Some(p)
  {
    var ts := PrintPolicy(p);
    JoinedIsLaidOut(words, ts, gaps);
    LexesIffLaidOut(Joined(words, gaps), ts);
    PolicyDerives(p);
    ParsesIffLaidOut(Joined(words, gaps), p);
  }

  // ---- nothing else is skipped ------------------------------------------------------

  lemma GapsJoin(gap: string, more: string)
    requires AreGaps(gap) && AreGaps(more)
    ensures AreGaps(gap + more)
  {
  }

  lemma Regrouped(gap: string, more: string, rest: string)
    ensures gap + (more + rest) == gap + more + rest
  {
  }

  lemma NextOfGaps(gap: string, s: string)
    requires AreGaps(gap)
    ensures Next(gap + s) == Next(s)
  {
    var more, rest := GapsBegin(s);
    GapsAreSkipped(more, rest);
    GapsJoin(gap, more);
    Regrouped(gap, more, rest);
    GapsAreSkipped(gap + more, rest);
  }

  lemma GapPrepends(gap: string, s: string)
    requires AreGaps(gap)
    ensures Tokens(gap + s) == Tokens(s)
  {
    var r := Next(s);
    NextOfGaps(gap, s);
    TokensUnfold(gap + s, r.0, r.1);
    TokensUnfold(s, r.0, r.1);
  }

  lemma NumberEndsInNumeral(word: string, x: real)
    requires SpellsNumber(word, x) && word != ""
    ensures IsNumeral(word[|word| - 1])
  {
    if !AreNumerals(word) {
      var whole, frac :| IsPointed(word, whole, frac) && x == Whole(whole) as real + Fraction(frac);
      assert word[|word| - 1] == frac[|frac| - 1];
    }
  }

  lemma WordEndsInNoGap(word: string, t: Token)
    requires Spells(word, t) && word != ""
    ensures !IsGap(word[|word| - 1])
  {
    if t.Num? {
      NumberEndsInNumeral(word, t.value);
    }
  }

  lemma RestEndsAlike(a: string, gap: string, word: string, rest: string, t: Token)
    requires Begins(a, gap, word, rest, t) && IsGap(a[|a| - 1])
    ensures rest != "" && rest[|rest| - 1] == a[|a| - 1]
  {
    assert a[|a| - 1] == if rest == "" then word[|word| - 1] else rest[|rest| - 1];
    WordEndsInNoGap(word, t);
  }

  lemma StillEnds(word: string, rest: string, more: string)
    requires word != "" && !GoesOn(word, rest) && rest != "" && IsGap(rest[|rest| - 1])
    ensures !GoesOn(word, rest + more)
  {
    assert (rest + more)[0] == rest[0];
    if |rest| > 1 {
      assert (rest + more)[1] == rest[1];
    }
  }

  lemma BeginsLonger(a: string, gap: string, word: string, rest: string, t: Token, more: string)
    requires Begins(a, gap, word, rest, t) && IsGap(a[|a| - 1])
    ensures Begins(a + more, gap, word, rest + more, t) && rest != "" && IsGap(rest[|rest| - 1])
  {
    RestEndsAlike(a, gap, word, rest, t);
    StillEnds(word, rest, more);
    assert a + more == gap + (word + (rest + more));
  }

  lemma PrefixStep(a: string, ts: seq<Token>, more: string) returns (rest: string)
    requires LaidOut(a, ts) && ts != [] && '\0' !in a && IsGap(a[|a| - 1])
    ensures LaidOut(rest, ts[1..]) && '\0' !in rest && rest != "" && IsGap(rest[|rest| - 1])
    ensures Tokens(a + more) == [ts[0]] + Tokens(rest + more)
  {
    var gap, word;
    gap, word, rest := LaidOutParts(a, ts);
    BeginsLonger(a, gap, word, rest, ts[0], more);
    BeginsIsNext(a + more, gap, word, rest + more, ts[0]);
    TokensUnfold(a + more, ts[0], rest + more);
    NoZeroAfter(a, gap, word, rest);
  }

  lemma NoZeroAfter(a: string, gap: string, word: string, rest: string)
    requires a == gap + (word + rest) && '\0' !in a
    ensures '\0' !in rest
  {
    assert forall i :: 0 <= i < |rest| ==> rest[i] == a[|gap| + |word| + i];
  }

  /** A text that ends in a gap is read by itself, whatever follows. */
  lemma {:induction false} PrefixLexes(a: string, ts: seq<Token>, more: string)
    requires LaidOut(a, ts) && '\0' !in a && (a == "" || IsGap(a[|a| - 1]))
    ensures Tokens(a + more) == ts + Tokens(more)
    decreases |ts|
  {
    if ts == [] {
      BlankPrefix(a, more);
      assert [] + Tokens(more) == Tokens(more);
    } else {
      LaidOutIsNotEmpty(a, ts);
      var rest := PrefixStep(a, ts, more);
      PrefixLexes(rest, ts[1..], more);
      PrefixJoins(ts, Tokens(more));
    }
  }

  lemma PrefixJoins(ts: seq<Token>, more: seq<Token>)
    requires ts != []
    ensures [ts[0]] + (ts[1..] + more) == ts + more
  {
  }

  lemma LaidOutIsNotEmpty(a: string, ts: seq<Token>)
    requires LaidOut(a, ts) && ts != []
    ensures a != ""
  {
    var gap, word, rest := LaidOutParts(a, ts);
  }

  lemma BlankPrefix(a: string, more: string)
    requires IsBlank(a) && '\0' !in a
    ensures Tokens(a + more) == Tokens(more)
  {
    var n :| 0 <= n <= |a| && AreGaps(a[..n]) && (n == |a| || a[n] == '\0');
    assert a[..n] == a;
    GapPrepends(a, more);
  }

  /** A character that starts no token and makes no gap; `=` and `!` start one only before `=`. */
  predicate IsStray(c: char, rest: string) {
    && c != '\0' && !IsGap(c) && !IsLetter(c) && !IsNumeral(c) && c != '"'
    && c != ':' && c != '(' && c != ')' && c != '[' && c != ']' && c != ',' && c != '<' && c != '>'
    && !((c == '=' || c == '!') && rest != "" && rest[0] == '=')
  }

  lemma StrayScans(c: char, rest: string)
    requires IsStray(c, rest)
    ensures Error in Tokens([c] + rest)
  {
    GapsAreSkipped("", [c] + rest);
    assert "" + ([c] + rest) == [c] + rest;
    TokensUnfold([c] + rest, Error, Next([c] + rest).1);
  }

  /** Such a character is never skipped: a text that has one after a gap is no policy. */
  lemma StrayIsRefused(a: string, ts: seq<Token>, c: char, rest: string)
    requires LaidOut(a, ts) && '\0' !in a && (a == "" || IsGap(a[|a| - 1])) && IsStray(c, rest)
    ensures Parse(a + ([c] + rest)) == None
  {
    var text := a + ([c] + rest);
    PrefixLexes(a, ts, [c] + rest);
    StrayScans(c, rest);
    if Parse(text).Some? {
      PolicySound(Tokens(text), Parse(text).value);
      var last := VaultCutting.PolicySums(Parse(text).value, Tokens(text));
    }
  }
}
