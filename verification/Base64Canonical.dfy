/** The base64url texts that the encoder writes, among all those that the decoder accepts. */
module Base64Canonical {
  import opened Options
  import opened Base64Url

  /** The bits of the last of `n` values that fill no byte are zero. */
  predicate IsClear(n: nat, last: sextet) {
    (n % 4 == 2 ==> last & 0xf == 0) && (n % 4 == 3 ==> last & 0x3 == 0)
  }

  /** The last group has a clear tail. */
  predicate HasClearTail(v: seq<sextet>) {
    if |v| >= 4 then HasClearTail(v[4..]) else v != [] ==> IsClear(|v|, v[|v| - 1])
  }

  /** Padded to whole groups of four and no further, no lone last symbol, and a clear tail. */
  predicate IsCanonical(s: string) {
    var t := Strip(s);
    AllSymbols(t) && |t| % 4 != 1 && |s| == 4 * ((|t| + 3) / 4) && HasClearTail(Values(t))
  }

  // ---- what is encoded is canonical -------------------------------------------------

  lemma {:induction false} BodyLength(x: seq<byte>)
    ensures |Body(x)| == (4 * |x| + 2) / 3
    decreases |x|
  {
    if |x| >= 3 {
      BodyLength(x[3..]);
    }
  }

  lemma UnusedFieldBits(a: byte, b: byte)
    ensures IsClear(2, Field2(Group(a, 0, 0))) && IsClear(3, Field1(Group(a, b, 0)))
  {
  }

  lemma SymbolsJoin(a: string, b: string)
    ensures AllSymbols(a + b) <==> AllSymbols(a) && AllSymbols(b)
  {
    var ab := a + b;
    assert forall i :: 0 <= i < |a| ==> ab[i] == a[i];
    assert forall i :: 0 <= i < |b| ==> ab[i + |a|] == b[i];
  }

  /** A group of four symbols in front changes nothing in the tail. */
  lemma TailOfJoin(quad: string, s: string)
    requires |quad| == 4 && AllSymbols(quad + s)
    ensures AllSymbols(s) && (HasClearTail(Values(quad + s)) <==> HasClearTail(Values(s)))
  {
    SymbolsJoin(quad, s);
    assert Values(quad + s)[4..] == Values(s);
  }

  lemma LongBody(x: seq<byte>)
    requires |x| >= 3
    ensures Body(x) == Quad(x) + Body(x[3..])
  {
  }

  lemma TailSymbol(s: string, v: sextet)
    requires 0 < |s| < 4 && AllSymbols(s) && s[|s| - 1] == Symbol(v) && IsClear(|s|, v)
    ensures HasClearTail(Values(s))
  {
    ValueOfSymbol(v);
  }

  lemma ShortBodyEnds(x: seq<byte>) returns (last: sextet)
    requires 1 <= |x| <= 2
    ensures |Body(x)| == |x| + 1 && Body(x)[|x|] == Symbol(last) && IsClear(|x| + 1, last)
  {
    UnusedFieldBits(At(x, 0), At(x, 1));
    last := if |x| == 1 then Field2(Group(x[0], 0, 0)) else Field1(Group(x[0], x[1], 0));
  }

  lemma ShortBodyHasClearTail(x: seq<byte>, s: string)
    requires 1 <= |x| <= 2 && s == Body(x) && AllSymbols(s)
    ensures HasClearTail(Values(s))
  {
    var last := ShortBodyEnds(x);
    TailSymbol(s, last);
  }

  lemma {:induction false} BodyHasClearTail(x: seq<byte>)
    requires AllSymbols(Body(x))
    ensures HasClearTail(Values(Body(x)))
    decreases |x|
  {
    if |x| >= 3 {
      LongBody(x);
      TailOfJoin(Quad(x), Body(x[3..]));
      BodyHasClearTail(x[3..]);
    } else if x != [] {
      ShortBodyHasClearTail(x, Body(x));
    }
  }

  lemma StripEncoded(x: seq<byte>)
    ensures Strip(Encoded(x)) == Body(x)
  {
    BodyIsStripped(x);
    StripIs(Encoded(x), |Body(x)|);
    assert Encoded(x)[..|Body(x)|] == Body(x);
  }

  lemma PaddedLength(n: nat)
    ensures (4 * n + 2) / 3 % 4 != 1 && 4 * ((n + 2) / 3) == 4 * (((4 * n + 2) / 3 + 3) / 4)
  {
  }

  lemma EncodedIsCanonical(x: seq<byte>)
    ensures IsCanonical(Encoded(x))
  {
    StripEncoded(x);
    BodyIsStripped(x);
    BodyHasClearTail(x);
    BodyLength(x);
    EncodedLength(x);
    PaddedLength(|x|);
  }

  // ---- what is canonical is encoded -------------------------------------------------

  lemma SextetOfNat(n: nat)
    requires n < 64
    ensures (n as sextet) as int == n
  {
  }

  lemma SymbolAt(c: char, n: nat)
    requires n < 64 && B64URL[n] == c && ValueOf(c) == Some(n as sextet)
    ensures Symbol(ValueOf(c).value) == c
  {
    SextetOfNat(n);
  }

  lemma SymbolOfValue(c: char)
    requires ValueOf(c).Some?
    ensures Symbol(ValueOf(c).value) == c
  {
    var i := c as int;
    if 'A' <= c <= 'Z' {
      UpperSymbols(i - 65);
      SymbolAt(c, i - 65);
    } else if 'a' <= c <= 'z' {
      LowerSymbols(i - 97 + 26);
      SymbolAt(c, i - 97 + 26);
    } else if '0' <= c <= '9' {
      DigitSymbols(i - 48 + 52);
      SymbolAt(c, i - 48 + 52);
    } else {
      SymbolAt(c, if c == '-' then 62 else 63);
    }
  }

  lemma RefillOne(v0: sextet, v1: sextet)
    ensures var t := Group(FirstByte(v0, v1), 0, 0); Field3(t) == v0 && (v1 & 0xf == 0 ==> Field2(t) == v1)
  {
  }

  lemma RefillTwo(v0: sextet, v1: sextet, v2: sextet)
    ensures var t := Group(FirstByte(v0, v1), SecondByte(v1, v2), 0);
      Field3(t) == v0 && Field2(t) == v1 && (v2 & 0x3 == 0 ==> Field1(t) == v2)
  {
  }

  lemma RefillThree(v0: sextet, v1: sextet, v2: sextet, v3: sextet)
    ensures var t := Group(FirstByte(v0, v1), SecondByte(v1, v2), ThirdByte(v2, v3));
      Field3(t) == v0 && Field2(t) == v1 && Field1(t) == v2 && Field0(t) == v3
  {
  }

  /** The symbols of values. */
  ghost function TextOf(v: seq<sextet>): string {
    seq(|v|, i requires 0 <= i < |v| => Symbol(v[i]))
  }

  lemma TextOfValues(s: string)
    requires AllSymbols(s)
    ensures TextOf(Values(s)) == s
  {
    forall i | 0 <= i < |s| ensures TextOf(Values(s))[i] == s[i] {
      SymbolOfValue(s[i]);
    }
  }

  lemma LongText(v: seq<sextet>)
    requires |v| >= 4
    ensures TextOf(v) == [Symbol(v[0]), Symbol(v[1]), Symbol(v[2]), Symbol(v[3])] + TextOf(v[4..])
  {
  }

  lemma SpelledShortly(prev: sextet, v: seq<sextet>) returns (x: seq<byte>)
    requires |v| in {0, 2, 3} && HasClearTail(v)
    ensures x == Spell(prev, v, 0) && Body(x) == TextOf(v)
  {
    x := Spell(prev, v, 0);
    if v != [] {
      SpellShort(prev, v);
      if |v| == 2 {
        RefillOne(v[0], v[1]);
      } else {
        RefillTwo(v[0], v[1], v[2]);
      }
    }
  }

  lemma SpelledQuad(prev: sextet, v: seq<sextet>) returns (x: seq<byte>)
    requires |v| >= 4
    ensures x == Spell(prev, v, 0) && |x| >= 3 && x[3..] == Spell(v[3], v[4..], 0)
    ensures Quad(x) == [Symbol(v[0]), Symbol(v[1]), Symbol(v[2]), Symbol(v[3])]
  {
    SpellQuad(prev, v);
    x := Spell(prev, v, 0);
    RefillThree(v[0], v[1], v[2], v[3]);
  }

  /** The unpadded text of the bytes that values spell. */
  lemma {:induction false} SpelledBody(prev: sextet, v: seq<sextet>) returns (x: seq<byte>)
    requires |v| % 4 != 1 && HasClearTail(v)
    ensures x == Spell(prev, v, 0) && Body(x) == TextOf(v)
    decreases |v|
  {
    if |v| < 4 {
      x := SpelledShortly(prev, v);
    } else {
      x := SpelledQuad(prev, v);
      var rest := SpelledBody(v[3], v[4..]);
      LongBody(x);
      LongText(v);
    }
  }

  lemma {:induction false} StripShape(s: string)
    ensures Strip(s) <= s && forall i :: |Strip(s)| <= i < |s| ==> s[i] == '='
    decreases |s|
  {
    if s != "" && s[|s| - 1] == '=' {
      StripShape(s[..|s| - 1]);
    }
  }

  /** Two texts that start alike and go on with padding only. */
  lemma SamePadding(s: string, s': string, n: nat)
    requires n <= |s| == |s'| && s[..n] == s'[..n]
    requires forall i :: n <= i < |s| ==> s[i] == '=' && s'[i] == '='
    ensures s == s'
  {
    assert forall i :: 0 <= i < n ==> s[i] == s[..n][i] && s'[i] == s'[..n][i];
  }

  lemma EncodedIs(x: seq<byte>, s: string)
    requires Body(x) == Strip(s) && |s| == 4 * ((|Strip(s)| + 3) / 4)
    ensures Encoded(x) == s
  {
    StripShape(s);
    BodyIsStripped(x);
    BodyLength(x);
    EncodedLength(x);
    PaddedLength(|x|);
    SamePadding(Encoded(x), s, |Strip(s)|);
  }

  lemma CanonicalIsEncoded(s: string)
    requires IsCanonical(s)
    ensures Decoded(s).Some? && Encoded(Decoded(s).value) == s
  {
    var t := Strip(s);
    var x := SpelledBody(0, Values(t));
    TextOfValues(t);
    EncodedIs(x, s);
  }

  /** Encoding what was decoded gives the text back exactly if the text is canonical. Every other
      accepted text has missing or excess padding, a lone last symbol or unused bits that are set. */
  lemma ReencodesIffCanonical(s: string)
    requires Decoded(s).Some?
    ensures Encoded(Decoded(s).value) == s <==> IsCanonical(s)
  {
    if Encoded(Decoded(s).value) == s {
      EncodedIsCanonical(Decoded(s).value);
    } else if IsCanonical(s) {
      CanonicalIsEncoded(s);
      assert false;
    }
  }
}
