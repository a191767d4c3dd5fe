/** The base64url codec of CHAFF (RFC 4648 section 5): an encoder over three-byte groups, and a
    decoder that shifts six-bit values into a 32-bit accumulator and lets its high bits fall off. */
module Base64Url {
  import opened Options

  type byte = bv8
  type sextet = bv6

  const B64URL := "ABCDEFGHIJKLMNOPQRSTUVWXYZ" + "abcdefghijklmnopqrstuvwxyz" + "0123456789-_"

  function Symbol(v: sextet): char {
    B64URL[v as int]
  }

  /** b64val: the value of a symbol; None is the source's -1. */
  function ValueOf(c: char): Option<sextet> {
    if 'A' <= c <= 'Z' then Some((c as int - 'A' as int) as sextet)
    else if 'a' <= c <= 'z' then Some((c as int - 'a' as int + 26) as sextet)
    else if '0' <= c <= '9' then Some((c as int - '0' as int + 52) as sextet)
    else if c == '-' then Some(62)
    else if c == '_' then Some(63)
    else None
  }

  lemma UpperSymbols(n: nat)
    requires n < 26
    ensures B64URL[n] as int == 'A' as int + n
  {
    match n {
      case 0 => case 1 => case 2 => case 3 => case 4 => case 5 => case 6 => case 7 => case 8 => case 9 =>
      case 10 => case 11 => case 12 => case 13 => case 14 => case 15 => case 16 => case 17 => case 18 => case 19 =>
      case 20 => case 21 => case 22 => case 23 => case 24 => case 25 =>
    }
  }

  lemma LowerSymbols(n: nat)
    requires 26 <= n < 52
    ensures B64URL[n] as int == 'a' as int + n - 26
  {
    match n {
      case 26 => case 27 => case 28 => case 29 => case 30 => case 31 => case 32 => case 33 => case 34 => case 35 =>
      case 36 => case 37 => case 38 => case 39 => case 40 => case 41 => case 42 => case 43 => case 44 => case 45 =>
      case 46 => case 47 => case 48 => case 49 => case 50 => case 51 =>
    }
  }

  lemma DigitSymbols(n: nat)
    requires 52 <= n < 62
    ensures B64URL[n] as int == '0' as int + n - 52
  {
    match n {
      case 52 => case 53 => case 54 => case 55 => case 56 => case 57 => case 58 => case 59 => case 60 => case 61 =>
    }
  }

  lemma ValueInRange(c: char, n: nat)
    requires n < 64
    requires n < 26 ==> c as int == 'A' as int + n
    requires 26 <= n < 52 ==> c as int == 'a' as int + n - 26
    requires 52 <= n < 62 ==> c as int == '0' as int + n - 52
    requires (n == 62 ==> c == '-') && (n == 63 ==> c == '_')
    ensures ValueOf(c) == Some(n as sextet) && c != '='
  {
  }

  /** The symbol table and b64val are inverse, and the padding character is not a symbol. */
  lemma ValueOfSymbol(v: sextet)
    ensures ValueOf(Symbol(v)) == Some(v) && Symbol(v) != '='
  {
    var n := v as int;
    if n < 26 {
      UpperSymbols(n);
    } else if n < 52 {
      LowerSymbols(n);
    } else if n < 62 {
      DigitSymbols(n);
    }
    ValueInRange(B64URL[n], n);
  }

  // ---- encoding ---------------------------------------------------------------------

  /** The 24-bit group of three bytes. */
  function Group(a: byte, b: byte, c: byte): bv32 {
    (a as bv32 << 16) | (b as bv32 << 8) | c as bv32
  }

  function Field3(trip: bv32): sextet { ((trip >> 18) & 0x3f) as sextet }
  function Field2(trip: bv32): sextet { ((trip >> 12) & 0x3f) as sextet }
  function Field1(trip: bv32): sextet { ((trip >> 6) & 0x3f) as sextet }
  function Field0(trip: bv32): sextet { (trip & 0x3f) as sextet }

  /** The byte at `i`, or zero bits where there is none. */
  function At(x: seq<byte>, i: nat): byte {
    if i < |x| then x[i] else 0
  }

  /** The four symbols of the group that starts `x`. */
  function Quad(x: seq<byte>): (s: string)
    ensures |s| == 4
  {
    var trip := Group(At(x, 0), At(x, 1), At(x, 2));
    [Symbol(Field3(trip)),
     Symbol(Field2(trip)),
     if |x| > 1 then Symbol(Field1(trip)) else '=',
     if |x| > 2 then Symbol(Field0(trip)) else '=']
  }

  /** `x` from index `i` on. */
  function From(x: seq<byte>, i: nat): seq<byte> {
    if i < |x| then x[i..] else []
  }

  function Encoded(x: seq<byte>): string
    decreases |x|
  {
    if x == [] then "" else Quad(x) + Encoded(From(x, 3))
  }

  // ---- decoding ---------------------------------------------------------------------

  function Strip(s: string): string {
    if s != "" && s[|s| - 1] == '=' then Strip(s[..|s| - 1]) else s
  }

  predicate AllSymbols(s: string) {
    forall i :: 0 <= i < |s| ==> ValueOf(s[i]).Some?
  }

  function Values(s: string): (v: seq<sextet>)
    requires AllSymbols(s)
    ensures |v| == |s|
  {
    seq(|s|, i requires 0 <= i < |s| => ValueOf(s[i]).value)
  }

  function FirstByte(v: sextet, w: sextet): byte {
    (v as byte << 2) | (w as byte >> 4)
  }

  function SecondByte(v: sextet, w: sextet): byte {
    (v as byte << 4) | (w as byte >> 2)
  }

  function ThirdByte(v: sextet, w: sextet): byte {
    (v as byte << 6) | w as byte
  }

  /** The bytes that six-bit values spell, every byte out of two neighbours: `prev` is the value
      before `v`, of which `bits` bits are still unused. Bits that do not fill a byte are dropped. */
  function Spell(prev: sextet, v: seq<sextet>, bits: nat): seq<byte>
    requires bits in {0, 2, 4, 6}
    decreases |v|
  {
    if v == [] then []
    else if bits == 0 then Spell(v[0], v[1..], 6)
    else if bits == 6 then [FirstByte(prev, v[0])] + Spell(v[0], v[1..], 4)
    else if bits == 4 then [SecondByte(prev, v[0])] + Spell(v[0], v[1..], 2)
    else [ThirdByte(prev, v[0])] + Spell(v[0], v[1..], 0)
  }

  /** b64url_decode: trailing padding is ignored, any other character that is no symbol is an
      error. */
  function Decoded(s: string): Option<seq<byte>> {
    var t := Strip(s);
    if AllSymbols(t) then Some(Spell(0, Values(t), 0)) else None
  }

  /** The accumulator after one more value; what is shifted out of the word is lost. */
  function ShiftIn(buf: bv32, v: sextet): bv32 {
    (buf << 6) | v as bv32
  }

  /** The byte above the lowest `bits` bits of the accumulator. */
  function TakeOut(buf: bv32, bits: nat): byte {
    if bits == 0 then (buf & 0xff) as byte
    else if bits == 2 then ((buf >> 2) & 0xff) as byte
    else ((buf >> 4) & 0xff) as byte
  }

  /** The byte taken out depends on the last two values only, not on the stale bits above. */
  lemma StaleBitsDoNotMatter(buf: bv32, prev: sextet, v: sextet)
    ensures var word := ShiftIn(ShiftIn(buf, prev), v);
      TakeOut(word, 4) == FirstByte(prev, v) && TakeOut(word, 2) == SecondByte(prev, v) &&
      TakeOut(word, 0) == ThirdByte(prev, v)
  {
  }

  // ---- the round trip ---------------------------------------------------------------

  /** Splitting three bytes into four fields and joining the fields again. */
  lemma FieldsRejoin(a: byte, b: byte, c: byte)
    ensures var t := Group(a, b, c);
      && FirstByte(Field3(t), Field2(t)) == a
      && SecondByte(Field2(t), Field1(t)) == b
      && ThirdByte(Field1(t), Field0(t)) == c
  {
  }

  /** The bits of a group, high ones first: six of the first byte, its last two and four of the
      second, the last four of that and two of the third, and six of the third. */
  lemma FieldsAreBits(a: byte, b: byte, c: byte)
    ensures var t := Group(a, b, c);
      && Field3(t) as byte == a >> 2
      && Field2(t) as byte == ((a & 0x3) << 4) | (b >> 4)
      && Field1(t) as byte == ((b & 0xf) << 2) | (c >> 6)
      && Field0(t) as byte == c & 0x3f
  {
  }

  /** The text of the first group: a symbol for each six bits that hold part of a byte, and padding
      up to four characters. */
  lemma QuadIs(x: seq<byte>)
    requires x != []
    ensures var t, q := Group(At(x, 0), At(x, 1), At(x, 2)), Quad(x);
      && q[0] == B64URL[Field3(t) as int] && q[1] == B64URL[Field2(t) as int]
      && q[2] == (if |x| > 1 then B64URL[Field1(t) as int] else '=')
      && q[3] == (if |x| > 2 then B64URL[Field0(t) as int] else '=')
      && Encoded(x) == q + Encoded(if |x| > 3 then x[3..] else [])
  {
  }

  /** What the symbols of a quad stand for. */
  lemma QuadValues(x: seq<byte>)
    ensures var t := Group(At(x, 0), At(x, 1), At(x, 2));
      && ValueOf(Quad(x)[0]) == Some(Field3(t)) && Quad(x)[0] != '='
      && ValueOf(Quad(x)[1]) == Some(Field2(t)) && Quad(x)[1] != '='
      && (|x| > 1 ==> ValueOf(Quad(x)[2]) == Some(Field1(t)) && Quad(x)[2] != '=')
      && (|x| > 2 ==> ValueOf(Quad(x)[3]) == Some(Field0(t)) && Quad(x)[3] != '=')
  {
    var t := Group(At(x, 0), At(x, 1), At(x, 2));
    ValueOfSymbol(Field3(t));
    ValueOfSymbol(Field2(t));
    ValueOfSymbol(Field1(t));
    ValueOfSymbol(Field0(t));
  }

  /** The encoded text without its padding. */
  ghost function Body(x: seq<byte>): string {
    if x == [] then ""
    else if |x| < 3 then Quad(x)[..|x| + 1]
    else Quad(x) + Body(x[3..])
  }

  lemma {:induction false} BodyIsStripped(x: seq<byte>)
    ensures Body(x) <= Encoded(x)
    ensures forall i :: |Body(x)| <= i < |Encoded(x)| ==> Encoded(x)[i] == '='
    ensures Body(x) != "" ==> Body(x)[|Body(x)| - 1] != '='
    ensures AllSymbols(Body(x))
  {
    if x != [] {
      QuadValues(x);
      if |x| >= 3 {
        BodyIsStripped(x[3..]);
        assert Encoded(x) == Quad(x) + Encoded(x[3..]);
      }
    }
  }

  lemma {:induction false} StripIs(s: string, n: nat)
    requires n <= |s| && forall i :: n <= i < |s| ==> s[i] == '='
    requires n > 0 ==> s[n - 1] != '='
    ensures Strip(s) == s[..n]
    decreases |s|
  {
    if n < |s| {
      StripIs(s[..|s| - 1], n);
      assert s[..|s| - 1][..n] == s[..n];
    } else {
      assert s[..n] == s;
    }
  }

  /** Four values are three bytes. */
  lemma SpellQuad(prev: sextet, v: seq<sextet>)
    requires |v| >= 4
    ensures Spell(prev, v, 0)
         == [FirstByte(v[0], v[1]), SecondByte(v[1], v[2]), ThirdByte(v[2], v[3])] + Spell(v[3], v[4..], 0)
  {
    var v1, v2, v3 := v[1..], v[2..], v[3..];
    assert v1[1..] == v2 && v2[1..] == v3 && v3[1..] == v[4..];
    assert Spell(v[2], v3, 2) == [ThirdByte(v[2], v[3])] + Spell(v[3], v[4..], 0);
    assert Spell(v[1], v2, 4) == [SecondByte(v[1], v[2])] + Spell(v[2], v3, 2);
    assert Spell(v[0], v1, 6) == [FirstByte(v[0], v[1])] + Spell(v[1], v2, 4);
  }

  lemma SpellShort(prev: sextet, v: seq<sextet>)
    requires |v| == 2 || |v| == 3
    ensures Spell(prev, v, 0)
         == if |v| == 2 then [FirstByte(v[0], v[1])] else [FirstByte(v[0], v[1]), SecondByte(v[1], v[2])]
  {
    var v1, v2 := v[1..], v[2..];
    assert v1[1..] == v2;
    if |v| == 3 {
      assert v2[1..] == [];
      assert Spell(v[1], v2, 4) == [SecondByte(v[1], v[2])];
    }
    assert Spell(v[0], v1, 6) == [FirstByte(v[0], v[1])] + Spell(v[1], v2, 4);
  }

  lemma BodyBytes(x: seq<byte>)
    requires x != [] && AllSymbols(Body(x))
    ensures var v := Values(Body(x));
      && |v| >= 2 && FirstByte(v[0], v[1]) == x[0]
      && (|x| > 1 ==> |v| >= 3 && SecondByte(v[1], v[2]) == x[1])
      && (|x| > 2 ==> |v| >= 4 && ThirdByte(v[2], v[3]) == x[2])
  {
    QuadValues(x);
    FieldsRejoin(At(x, 0), At(x, 1), At(x, 2));
  }

  lemma {:induction false} BodyDecodes(prev: sextet, x: seq<byte>)
    requires AllSymbols(Body(x))
    ensures Spell(prev, Values(Body(x)), 0) == x
    decreases |x|
  {
    if x != [] {
      BodyBytes(x);
      var v := Values(Body(x));
      if |x| < 3 {
        SpellShort(prev, v);
      } else {
        BodyIsStripped(x[3..]);
        SpellQuad(prev, v);
        BodyDecodes(v[3], x[3..]);
        assert v[4..] == Values(Body(x[3..]));
        assert x == [x[0], x[1], x[2]] + x[3..];
      }
    }
  }

  /** Decoding an encoded byte sequence returns it, whatever its length. */
  lemma RoundTrip(x: seq<byte>)
    ensures Decoded(Encoded(x)) == Some(x)
  {
    BodyIsStripped(x);
    StripIs(Encoded(x), |Body(x)|);
    assert Encoded(x)[..|Body(x)|] == Body(x);
    BodyDecodes(0, x);
  }

  // ---- the loops --------------------------------------------------------------------

  lemma EncodedStep(x: seq<byte>, i: nat)
    requires i < |x|
    ensures Encoded(From(x, i)) == Quad(From(x, i)) + Encoded(From(x, i + 3))
  {
    assert From(From(x, i), 3) == From(x, i + 3);
  }

  lemma {:induction false} EncodedLength(x: seq<byte>)
    ensures |Encoded(x)| == 4 * ((|x| + 2) / 3)
    decreases |x|
  {
    if x != [] {
      EncodedLength(From(x, 3));
    }
  }

  /** b64url_encode: the text in a buffer of exactly its length and a terminator. */
  method Encode(input: seq<byte>) returns (out: array<char>)
    ensures out.Length == 4 * ((|input| + 2) / 3) + 1
    ensures out[..] == Encoded(input) + ['\0']
  {
    var olen := 4 * ((|input| + 2) / 3);
    EncodedLength(input);
    out := new char[olen + 1];
    var o, i := 0, 0;
    while i < |input|
      invariant 0 <= i && 0 <= o && o + |Encoded(From(input, i))| == olen
      invariant out[..o] + Encoded(From(input, i)) == Encoded(input)
    {
      EncodeTurn(out, o, input, i);
      o := o + 4;
      i := i + 3;
    }
    out[o] := '\0';
    assert From(input, i) == [] && out[..o] + "" == out[..o];
    assert out[..] == out[..o] + ['\0'];
  }

  /** One turn of the encoder's loop. */
  method EncodeTurn(out: array<char>, o: nat, input: seq<byte>, i: nat)
    requires i < |input| && o + |Encoded(From(input, i))| < out.Length
    modifies out
    ensures |Encoded(From(input, i))| == 4 + |Encoded(From(input, i + 3))| && o + 4 <= out.Length
    ensures out[..o + 4] + Encoded(From(input, i + 3)) == old(out[..o]) + Encoded(From(input, i))
  {
    ghost var before, rest := out[..o], Encoded(From(input, i + 3));
    var quad := EncodeGroup(input, i);
    Put4(out, o, quad);
    assert before + (quad + rest) == before + quad + rest;
  }

  /** The symbols that one turn of the encoder's loop computes. */
  method EncodeGroup(input: seq<byte>, i: nat) returns (quad: string)
    requires i < |input|
    ensures |quad| == 4 && Encoded(From(input, i)) == quad + Encoded(From(input, i + 3))
  {
    EncodedStep(input, i);
    quad := QuadOf(input, i);
  }

  method QuadOf(input: seq<byte>, i: nat) returns (quad: string)
    requires i < |input|
    ensures quad == Quad(From(input, i)) && |quad| == 4
  {
    var rem := |input| - i;
    var trip := TripleOf(input, i);
    quad := [Symbol(Field3(trip)),
             Symbol(Field2(trip)),
             if rem > 1 then Symbol(Field1(trip)) else '=',
             if rem > 2 then Symbol(Field0(trip)) else '='];
  }

  method TripleOf(input: seq<byte>, i: nat) returns (trip: bv32)
    requires i < |input|
    ensures var x := From(input, i); trip == Group(At(x, 0), At(x, 1), At(x, 2))
  {
    var rem := |input| - i;
    trip := FirstPart(input[i]);
    if rem > 1 {
      trip := SecondPart(trip, input[i], input[i + 1]);
    }
    if rem > 2 {
      trip := ThirdPart(trip, input[i], input[i + 1], input[i + 2]);
    }
  }

  // The group is assembled one byte at a time, high bits first.

  method FirstPart(a: byte) returns (trip: bv32)
    ensures trip == Group(a, 0, 0)
  {
    trip := a as bv32 << 16;
  }

  method SecondPart(trip: bv32, ghost a: byte, b: byte) returns (trip': bv32)
    requires trip == Group(a, 0, 0)
    ensures trip' == Group(a, b, 0)
  {
    trip' := trip | (b as bv32 << 8);
  }

  method ThirdPart(trip: bv32, ghost a: byte, ghost b: byte, c: byte) returns (trip': bv32)
    requires trip == Group(a, b, 0)
    ensures trip' == Group(a, b, c)
  {
    trip' := trip | c as bv32;
  }

  /** The stores of the encoder's loop. */
  method Put4(out: array<char>, o: nat, quad: string)
    requires o + 4 < out.Length && |quad| == 4
    modifies out
    ensures out[..o + 4] == old(out[..o]) + quad
  {
    out[o] := quad[0];
    out[o + 1] := quad[1];
    out[o + 2] := quad[2];
    out[o + 3] := quad[3];
  }

  method StrippedLength(input: string) returns (len: nat)
    ensures len <= |input| && input[..len] == Strip(input)
  {
    len := |input|;
    assert input[..len] == input;
    while len > 0 && input[len - 1] == '='
      invariant len <= |input| && Strip(input[..len]) == Strip(input)
    {
      assert input[..len][..len - 1] == input[..len - 1];
      len := len - 1;
    }
  }

  /** The decoder's answer once `done` is written and the characters `s` are still to come. */
  ghost function DecodeFrom(done: seq<byte>, s: string, buf: bv32, bits: nat): Option<seq<byte>>
    requires bits in {0, 2, 4, 6}
    decreases |s|
  {
    if s == "" then Some(done)
    else if ValueOf(s[0]) == None then None
    else
      var word := ShiftIn(buf, ValueOf(s[0]).value);
      if bits == 0 then DecodeFrom(done, s[1..], word, 6)
      else DecodeFrom(done + [TakeOut(word, bits - 2)], s[1..], word, bits - 2)
  }

  lemma AllSymbolsStep(s: string)
    requires s != ""
    ensures AllSymbols(s) <==> ValueOf(s[0]).Some? && AllSymbols(s[1..])
    ensures AllSymbols(s) ==> Values(s)[0] == ValueOf(s[0]).value && Values(s)[1..] == Values(s[1..])
  {
    assert s == [s[0]] + s[1..];
    if AllSymbols(s) {
      assert AllSymbols(s[1..]) && Values(s)[1..] == Values(s[1..]);
    }
  }

  /** The bits left unused once one more value has come in. */
  function Left(bits: nat): (r: nat)
    requires bits in {0, 2, 4, 6}
    ensures r in {0, 2, 4, 6}
  {
    if bits == 0 then 6 else bits - 2
  }

  /** What one more value writes: nothing, or the byte it completes. */
  ghost function Emitted(prev: sextet, v: sextet, bits: nat): seq<byte>
    requires bits in {0, 2, 4, 6}
  {
    if bits == 0 then []
    else if bits == 6 then [FirstByte(prev, v)]
    else if bits == 4 then [SecondByte(prev, v)]
    else [ThirdByte(prev, v)]
  }

  lemma SpellStep(prev: sextet, v: seq<sextet>, bits: nat)
    requires bits in {0, 2, 4, 6} && v != []
    ensures Spell(prev, v, bits) == Emitted(prev, v[0], bits) + Spell(v[0], v[1..], Left(bits))
  {
  }

  lemma DecodeFromStep(done: seq<byte>, s: string, buf: bv32, prev: sextet, v: sextet, bits: nat)
    requires bits in {0, 2, 4, 6} && s != "" && ValueOf(s[0]) == Some(v)
    ensures DecodeFrom(done, s, ShiftIn(buf, prev), bits) ==
      DecodeFrom(done + Emitted(prev, v, bits), s[1..], ShiftIn(ShiftIn(buf, prev), v), Left(bits))
  {
    StaleBitsDoNotMatter(buf, prev, v);
    assert done + [] == done;
  }

  /** The accumulator spells the values, whatever it held before the value `prev`. */
  lemma {:induction false} DecodeFromSpells(done: seq<byte>, s: string, buf: bv32, prev: sextet, bits: nat)
    requires bits in {0, 2, 4, 6}
    ensures DecodeFrom(done, s, ShiftIn(buf, prev), bits)
         == if AllSymbols(s) then Some(done + Spell(prev, Values(s), bits)) else None
    decreases |s|
  {
    if s == "" {
      assert done + [] == done;
    } else {
      AllSymbolsStep(s);
      if ValueOf(s[0]).Some? {
        var v := ValueOf(s[0]).value;
        var emitted := Emitted(prev, v, bits);
        DecodeFromStep(done, s, buf, prev, v, bits);
        DecodeFromSpells(done + emitted, s[1..], ShiftIn(buf, prev), v, Left(bits));
        if AllSymbols(s) {
          SpellStep(prev, Values(s), bits);
          var more := Spell(v, Values(s[1..]), Left(bits));
          assert done + (emitted + more) == done + emitted + more;
        }
      }
    }
  }

  lemma DecodeFromStart(s: string)
    ensures DecodeFrom([], s, 0, 0) == if AllSymbols(s) then Some(Spell(0, Values(s), 0)) else None
  {
    DecodeFromSpells([], s, 0, 0, 0);
    assert ShiftIn(0, 0) == 0;
    if AllSymbols(s) {
      assert [] + Spell(0, Values(s), 0) == Spell(0, Values(s), 0);
    }
  }

  /** b64url_decode: every byte is written inside the `len / 4 * 3 + 3` that are allocated. */
  method Decode(input: string) returns (r: Option<seq<byte>>)
    ensures r == Decoded(input)
  {
    var len := StrippedLength(input);
    ghost var text := input[..len];
    var out := new byte[len / 4 * 3 + 3];
    var o, bits := 0, 0;
    var buf: bv32 := 0;
    DecodeFromStart(text);
    assert text[0..] == text && out[..0] == [];
    var i := 0;
    while i < len
      invariant 0 <= i <= len && bits in {0, 2, 4, 6} && 8 * o + bits == 6 * i && 0 <= o
      invariant DecodeFrom(out[..o], text[i..], buf, bits) == Decoded(input)
    {
      assert text[i..][0] == input[i] && text[i..][1..] == text[i + 1..];
      var v := ValueOf(input[i]);
      if v == None {
        return None;
      }
      buf := (buf << 6) | v.value as bv32;
      bits := bits + 6;
      if bits >= 8 {
        bits := bits - 8;
        ghost var before := out[..o];
        out[o] := TakeOut(buf, bits);
        o := o + 1;
        assert out[..o] == before + [TakeOut(buf, bits)];
      }
      i := i + 1;
    }
    assert text[len..] == "";
    r := Some(out[..o]);
  }
}
