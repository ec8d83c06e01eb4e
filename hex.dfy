/** Go's `encoding/hex` and the `%04x` verb, as far as the tunnel uses them. */
module Hex {
  import opened Wrappers

  const Digits: string := "0123456789abcdef"

  /** A digit of lower-case hexadecimal, as `hex.EncodeToString` and `%x` write them. */
  predicate IsLowerDigit(c: char)
  {
    '0' <= c <= '9' || 'a' <= c <= 'f'
  }

  /** The digit for `v` is a lower-case hexadecimal digit. */
  lemma DigitIsLower(v: int)
    requires 0 <= v < 16
    ensures IsLowerDigit(Digits[v])
  {
  }

  /** The value of a hexadecimal digit in either case, as Go's `hex` decoder reads it. */
  function DigitValue(c: char): (v: Option<int>)
    ensures v.Some? <==> IsLowerDigit(c) || 'A' <= c <= 'F'
    ensures v.Some? ==> 0 <= v.value < 16
  {
    if '0' <= c <= '9' then Some(c as int - '0' as int)
    else if 'a' <= c <= 'f' then Some(c as int - 'a' as int + 10)
    else if 'A' <= c <= 'F' then Some(c as int - 'A' as int + 10)
    else None
  }

  lemma DigitRoundTrip(v: int)
    requires 0 <= v < 16
    ensures DigitValue(Digits[v]) == Some(v)
  {
  }

  /** `hex.EncodeToString`: two lower-case digits per byte, high nibble first. */
  function Encode(b: seq<byte>): (s: string)
    ensures |s| == 2 * |b|
    ensures forall i :: 0 <= i < |s| ==> IsLowerDigit(s[i])
  {
    if b == [] then ""
    else
      DigitIsLower(b[0] / 16);
      DigitIsLower(b[0] % 16);
      [Digits[b[0] / 16], Digits[b[0] % 16]] + Encode(b[1..])
  }

  /**
   * The bytes `hex.DecodeString(s)` returns whether or not it also reports an
   * error: the pairs decoded before the first invalid digit or odd trailing digit.
   */
  function DecodePrefix(s: string): (b: seq<byte>)
    ensures |b| <= |s| / 2
  {
    if |s| < 2 then []
    else match (DigitValue(s[0]), DigitValue(s[1]))
      case (Some(h), Some(l)) => [h * 16 + l] + DecodePrefix(s[2..])
      case _ => []
  }

  /** Two valid digits at the front decode to one byte ahead of the rest. */
  lemma DecodePair(s: string, hi: int, lo: int)
    requires |s| >= 2 && DigitValue(s[0]) == Some(hi) && DigitValue(s[1]) == Some(lo)
    ensures DecodePrefix(s) == [hi * 16 + lo] + DecodePrefix(s[2..])
  {
  }

  /** Decoding reads back every byte that encoding wrote. */
  lemma {:induction false} DecodeEncode(b: seq<byte>)
    ensures DecodePrefix(Encode(b)) == b
  {
    if b != [] {
      DecodeEncode(b[1..]);
      DecodeEncodeStep(b);
    }
  }

  /** The first byte's two digits decode back to it, ahead of the rest. */
  lemma DecodeEncodeStep(b: seq<byte>)
    requires b != [] && DecodePrefix(Encode(b[1..])) == b[1..]
    ensures DecodePrefix(Encode(b)) == b
  {
    var hi, lo := b[0] / 16, b[0] % 16;
    EncodeHead(b);
    DecodePair(Encode(b), hi, lo);
    assert [hi * 16 + lo] + b[1..] == b;
  }

  /** Encoding writes the first byte's high and low digit, then encodes the rest. */
  lemma EncodeHead(b: seq<byte>)
    requires b != []
    ensures |Encode(b)| >= 2
    ensures DigitValue(Encode(b)[0]) == Some(b[0] / 16) && DigitValue(Encode(b)[1]) == Some(b[0] % 16)
    ensures Encode(b)[2..] == Encode(b[1..])
  {
    DigitRoundTrip(b[0] / 16);
    DigitRoundTrip(b[0] % 16);
  }

  /** `fmt.Sprintf("%04x", n)` for a `uint16`: four lower-case digits, most significant first. */
  function Format04x(n: uint16): (s: string)
    ensures |s| == 4 && forall i :: 0 <= i < 4 ==> IsLowerDigit(s[i])
  {
    DigitIsLower(n / 4096);
    DigitIsLower(n / 256 % 16);
    DigitIsLower(n / 16 % 16);
    DigitIsLower(n % 16);
    [Digits[n / 4096], Digits[n / 256 % 16], Digits[n / 16 % 16], Digits[n % 16]]
  }

  lemma NibblesOf(n: uint16)
    ensures n / 256 / 16 == n / 4096
    ensures n % 256 / 16 == n / 16 % 16 && n % 256 % 16 == n % 16
  {
    var hi, lo := n / 256, n % 256;
    assert n == 256 * hi + lo;
    var a, b := hi / 16, hi % 16;
    var c, d := lo / 16, lo % 16;
    assert n == 4096 * a + 256 * b + 16 * c + d;
    assert n / 16 == 256 * a + 16 * b + c;
    assert n / 4096 == a;
  }

  /** The `%04x` field spells out the two big-endian bytes of `n`. */
  lemma Format04xIsBigEndianHex(n: uint16)
    ensures Format04x(n) == Encode([n / 256, n % 256])
  {
    var b: seq<byte> := [n / 256, n % 256];
    NibblesOf(n);
    assert b[1..][1..] == [];
    assert Encode(b) == [Digits[b[0] / 16], Digits[b[0] % 16]] + Encode(b[1..]);
    assert Encode(b[1..]) == [Digits[b[1] / 16], Digits[b[1] % 16]] + Encode(b[1..][1..]);
  }
}
