/** The hexadecimal text in which the vault keeps nonces and ciphertexts, and its decoder, which
    reads each pair of characters as C's strtol does. */
module VaultHex {
  import opened Options

  type Byte = x: int | 0 <= x < 256
  type Bytes = seq<Byte>

  const HEX_DIGITS: string := "0123456789abcdef"

  // ---- encoding ---------------------------------------------------------------------

  function Pair(b: Byte): string {
    [HEX_DIGITS[b / 16], HEX_DIGITS[b % 16]]
  }

  function Encoded(bytes: Bytes): (hex: string)
    ensures |hex| == 2 * |bytes|
  {
    if bytes == [] then "" else Encoded(bytes[..|bytes| - 1]) + Pair(bytes[|bytes| - 1])
  }

  method HexEncode(b: array<Byte>) returns (out: array<char>)
    ensures fresh(out) && out[..] == Encoded(b[..])
  {
    out := new char[2 * b.Length](_ => '\0');
    for i := 0 to b.Length
      invariant out[..2 * i] == Encoded(b[..i])
    {
      assert b[..i + 1][..i] == b[..i];
      out[2 * i], out[2 * i + 1] := HEX_DIGITS[b[i] / 16], HEX_DIGITS[b[i] % 16];
      assert out[..2 * (i + 1)] == out[..2 * i] + Pair(b[i]);
    }
    assert b[..b.Length] == b[..] && out[..2 * b.Length] == out[..];
  }

  // ---- decoding ---------------------------------------------------------------------

  function DigitValue(c: char): Option<int> {
    if '0' <= c <= '9' then Some(c as int - '0' as int)
    else if 'a' <= c <= 'f' then Some(c as int - 'a' as int + 10)
    else if 'A' <= c <= 'F' then Some(c as int - 'A' as int + 10)
    else None
  }

  predicate IsSpace(c: char) {
    c == ' ' || '\t' <= c <= '\r'
  }

  /** strtol of two characters to base 16, if it uses up both: two digits, or one after a space or
      a sign. */
  function Strtol(a: char, b: char): Option<int> {
    if DigitValue(b) == None then None
    else
      var low := DigitValue(b).value;
      if DigitValue(a).Some? then Some(16 * DigitValue(a).value + low)
      else if IsSpace(a) || a == '+' then Some(low)
      else if a == '-' then Some(-low)
      else None
  }

  function DecodedTo(hex: string, k: nat): (bytes: Option<Bytes>)
    requires 2 * k <= |hex|
    ensures bytes.Some? ==> |bytes.value| == k
  {
    if k == 0 then Some([])
    else
      var before, v := DecodedTo(hex, k - 1), Strtol(hex[2 * k - 2], hex[2 * k - 1]);
      if before == None || v == None then None else Some(before.value + [v.value % 256])
  }

  function Decoded(hex: string, max: nat): Option<Bytes> {
    if |hex| % 2 != 0 || |hex| / 2 > max then None else DecodedTo(hex, |hex| / 2)
  }

  /** Returns the number of bytes written, or -1. */
  method HexDecode(hex: string, out: array<Byte>) returns (n: int)
    modifies out
    ensures match Decoded(hex, out.Length)
            case None => n == -1
            case Some(bytes) => 0 <= n <= out.Length && out[..n] == bytes
  {
    if |hex| % 2 != 0 || |hex| / 2 > out.Length {
      return -1;
    }
    for i := 0 to |hex| / 2
      invariant DecodedTo(hex, i) == Some(out[..i])
    {
      var v := Strtol(hex[2 * i], hex[2 * i + 1]);
      if v == None {
        NoneStays(hex, i + 1, |hex| / 2);
        return -1;
      }
      out[i] := v.value % 256;
      assert out[..i + 1] == out[..i] + [v.value % 256];
    }
    n := |hex| / 2;
  }

  lemma NoneStays(hex: string, j: nat, k: nat)
    requires j <= k && 2 * k <= |hex| && DecodedTo(hex, j) == None
    ensures DecodedTo(hex, k) == None
    decreases k
  {
    if j < k {
      NoneStays(hex, j, k - 1);
    }
  }

  // ---- round trip -------------------------------------------------------------------

  lemma PairIsByte(b: Byte)
    ensures Strtol(Pair(b)[0], Pair(b)[1]) == Some(b)
  {
    DigitIsValue(b / 16);
    DigitIsValue(b % 16);
  }

  lemma DigitIsValue(d: int)
    requires 0 <= d < 16
    ensures DigitValue(HEX_DIGITS[d]) == Some(d)
  {
  }

  lemma {:induction false} EncodedAt(bytes: Bytes, i: nat)
    requires i < |bytes|
    ensures Encoded(bytes)[2 * i] == Pair(bytes[i])[0] && Encoded(bytes)[2 * i + 1] == Pair(bytes[i])[1]
  {
    var n := |bytes| - 1;
    if i < n {
      EncodedAt(bytes[..n], i);
    }
  }

  predicate IsPairOf(hex: string, i: nat, b: Byte)
    requires 2 * i + 1 < |hex|
  {
    Strtol(hex[2 * i], hex[2 * i + 1]) == Some(b)
  }

  lemma EncodedIsPair(bytes: Bytes, i: nat)
    requires i < |bytes|
    ensures IsPairOf(Encoded(bytes), i, bytes[i])
  {
    EncodedAt(bytes, i);
    PairIsByte(bytes[i]);
  }

  lemma {:induction false} DecodedEncoded(bytes: Bytes, k: nat)
    requires k <= |bytes|
    ensures DecodedTo(Encoded(bytes), k) == Some(bytes[..k])
  {
    if k > 0 {
      var i := k - 1;
      DecodedEncoded(bytes, i);
      EncodedIsPair(bytes, i);
      assert bytes[..k] == bytes[..i] + [bytes[i]];
    }
  }

  /** Whatever was encoded decodes to itself, wherever there is room for it. */
  lemma RoundTrip(bytes: Bytes, max: nat)
    ensures Decoded(Encoded(bytes), max) == if |bytes| <= max then Some(bytes) else None
  {
    DecodedEncoded(bytes, |bytes|);
    assert bytes[..|bytes|] == bytes;
    DecodedWhole(Encoded(bytes), bytes, max);
  }

  lemma DecodedWhole(hex: string, bytes: Bytes, max: nat)
    requires |hex| == 2 * |bytes| && DecodedTo(hex, |bytes|) == Some(bytes)
    ensures Decoded(hex, max) == if |bytes| <= max then Some(bytes) else None
  {
    var half := |hex| / 2;
    assert half == |bytes|;
  }
}
