/**
 * Go's `base32.StdEncoding.WithPadding(base32.NoPadding)`: the RFC 4648
 * section 6 alphabet, no `=` padding. Data is read as one big-endian bit
 * stream; every 5 bits become one character, and a final group shorter than
 * 5 bits is filled with zero bits. Decoding reads 5 bits per character and
 * keeps whole bytes, dropping the left-over (fewer than 8) bits.
 */
module Base32 {
  import opened Wrappers
  import Text

  /** RFC 4648 section 6, table 3. */
  const Alphabet: string := "ABCDEFGHIJKLMNOPQRSTUVWXYZ234567"

  /** Entry `v` of the alphabet: `A`-`Z` for 0-25, `2`-`7` for 26-31. */
  function Symbol(v: nat): (c: char)
    requires v < 32
  {
    if v < 26 then ('A' as int + v) as char else ('2' as int + v - 26) as char
  }

  predicate InAlphabet(c: char)
  {
    'A' <= c <= 'Z' || '2' <= c <= '7'
  }

  /** `Symbol` spells out the table. */
  lemma SymbolsAreAlphabet()
    ensures forall v :: 0 <= v < 32 ==> Symbol(v) == Alphabet[v]
  {
  }

  function Pow2(n: nat): (p: nat)
    ensures p >= 1
  {
    if n == 0 then 1 else 2 * Pow2(n - 1)
  }

  /** The `n` low bits of `v`, most significant first. */
  function ToBits(v: nat, n: nat): (bs: seq<bool>)
    ensures |bs| == n
  {
    if n == 0 then [] else ToBits(v / 2, n - 1) + [v % 2 == 1]
  }

  /** The number whose binary digits, most significant first, are `bs`. */
  function FromBits(bs: seq<bool>): (v: nat)
    ensures v < Pow2(|bs|)
  {
    if bs == [] then 0 else 2 * FromBits(bs[..|bs| - 1]) + (if bs[|bs| - 1] then 1 else 0)
  }

  lemma {:induction false} FromToBits(v: nat, n: nat)
    requires v < Pow2(n)
    ensures FromBits(ToBits(v, n)) == v
  {
    if n > 0 {
      var bs := ToBits(v, n);
      assert bs[..|bs| - 1] == ToBits(v / 2, n - 1) && bs[|bs| - 1] == (v % 2 == 1);
      assert Pow2(n) == 2 * Pow2(n - 1);
      FromToBits(v / 2, n - 1);
      assert v == 2 * (v / 2) + v % 2;
    }
  }

  lemma {:induction false} ToFromBits(bs: seq<bool>)
    ensures ToBits(FromBits(bs), |bs|) == bs
  {
    if bs != [] {
      var init := bs[..|bs| - 1];
      ToFromBits(init);
      assert bs == init + [bs[|bs| - 1]];
    }
  }

  /** The bytes of `d` as one bit stream, each byte most significant bit first. */
  function BytesToBits(d: seq<byte>): (bs: seq<bool>)
    ensures |bs| == 8 * |d|
  {
    if d == [] then [] else ToBits(d[0], 8) + BytesToBits(d[1..])
  }

  /** The bytes spelled by a bit stream whose length is a multiple of 8. */
  function BitsToBytes(bs: seq<bool>): (d: seq<byte>)
    requires |bs| % 8 == 0
    ensures |d| == |bs| / 8
  {
    if bs == [] then []
    else
      assert Pow2(8) == 256;
      [FromBits(bs[..8])] + BitsToBytes(bs[8..])
  }

  lemma {:induction false} BitsBytesRoundTrip(d: seq<byte>)
    ensures BitsToBytes(BytesToBits(d)) == d
  {
    if d != [] {
      var bs := BytesToBits(d);
      assert Pow2(8) == 256;
      assert bs[..8] == ToBits(d[0], 8);
      assert bs[8..] == BytesToBits(d[1..]);
      FromToBits(d[0], 8);
      BitsBytesRoundTrip(d[1..]);
    }
  }

  /** One alphabet character per 5 bits. */
  function Group(bs: seq<bool>): (s: string)
    requires |bs| % 5 == 0
    ensures |s| == |bs| / 5
    ensures forall i :: 0 <= i < |s| ==> InAlphabet(s[i])
  {
    if bs == [] then ""
    else
      assert Pow2(5) == 32;
      [Symbol(FromBits(bs[..5]))] + Group(bs[5..])
  }

  /** Zero bits that fill the stream up to a whole number of 5-bit groups. */
  function PadTo5(bs: seq<bool>): (p: seq<bool>)
    ensures |p| % 5 == 0 && |bs| <= |p| < |bs| + 5
    ensures p[..|bs|] == bs
  {
    bs + seq((5 - |bs| % 5) % 5, _ => false)
  }

  /** `EncodeToString` without padding, in the upper-case alphabet. */
  function Encode(d: seq<byte>): (s: string)
    ensures |s| == (8 * |d| + 4) / 5
    ensures forall i :: 0 <= i < |s| ==> InAlphabet(s[i])
  {
    Group(PadTo5(BytesToBits(d)))
  }

  /** The 5-bit value of an alphabet character; `None` for every other character, lower-case letters included. */
  function CharValue(c: char): (v: Option<nat>)
    ensures v.Some? <==> InAlphabet(c)
    ensures v.Some? ==> v.value < 32 && Symbol(v.value) == c
  {
    if 'A' <= c <= 'Z' then Some(c as int - 'A' as int)
    else if '2' <= c <= '7' then Some(c as int - '2' as int + 26)
    else None
  }

  /** The bit stream of a run of characters, or `None` at the first character outside the alphabet. */
  function CharsToBits(s: string): (r: Option<seq<bool>>)
    ensures r.Some? <==> forall i :: 0 <= i < |s| ==> InAlphabet(s[i])
    ensures r.Some? ==> |r.value| == 5 * |s|
  {
    if s == "" then Some([])
    else match (CharValue(s[0]), CharsToBits(s[1..]))
      case (Some(v), Some(rest)) => Some(ToBits(v, 5) + rest)
      case (Some(_), None) =>
        assert forall i :: 1 <= i < |s| ==> s[i] == s[1..][i - 1];
        None
      case (None, _) => None
  }

  /** `DecodeString` drops `\r` and `\n` before decoding. */
  function StripNewlines(s: string): (t: string)
    ensures |t| <= |s|
    ensures forall i :: 0 <= i < |t| ==> t[i] != '\r' && t[i] != '\n'
    ensures (forall i :: 0 <= i < |s| ==> s[i] != '\r' && s[i] != '\n') ==> t == s
  {
    if s == "" then ""
    else if s[0] == '\r' || s[0] == '\n' then StripNewlines(s[1..])
    else
      assert forall i :: 1 <= i < |s| ==> s[i] == s[1..][i - 1];
      [s[0]] + StripNewlines(s[1..])
  }

  /**
   * A final group of 1, 3 or 6 characters: RFC 4648 section 6 says no
   * encoder writes one. Without padding, Go's decoder accepts it and keeps no
   * byte from it, because its `switch dlen` has no case for these lengths.
   */
  predicate BadLength(n: nat)
  {
    n % 8 == 1 || n % 8 == 3 || n % 8 == 6
  }

  /** Bytes kept from a final group of `j` characters: none for 1, 3 or 6, else the whole bytes of its `5 * j` bits. */
  function TailBytes(j: nat): (k: nat)
    requires j < 8
    ensures k <= 5 * j / 8
    ensures k == 0 <==> j == 0 || j == 1 || j == 3 || j == 6
  {
    if j == 1 || j == 3 || j == 6 then 0 else 5 * j / 8
  }

  /** Number of bytes `DecodeString` yields for `n` alphabet characters: 5 per whole group of 8, then the tail's. */
  function DecodedLength(n: nat): (k: nat)
    ensures 8 * k <= 5 * n
    ensures !BadLength(n) ==> k == 5 * n / 8
    ensures BadLength(n) ==> k == 5 * (n / 8)
  {
    var q, j := n / 8, n % 8;
    assert n == 8 * q + j && 5 * n == 40 * q + 5 * j;
    5 * q + TailBytes(j)
  }

  /**
   * `DecodeString`: the bytes encoded by `s`, or an error for a character
   * outside the alphabet. The length of the text is never an error.
   */
  function Decode(s: string): (r: Result<seq<byte>>)
    ensures r.Ok? ==> forall i :: 0 <= i < |StripNewlines(s)| ==> InAlphabet(StripNewlines(s)[i])
    ensures r.Err? ==> !(forall i :: 0 <= i < |StripNewlines(s)| ==> InAlphabet(StripNewlines(s)[i]))
    ensures r.Ok? ==> |r.value| == DecodedLength(|StripNewlines(s)|)
  {
    var t := StripNewlines(s);
    var bits := CharsToBits(t);
    if bits.None? then
      Err("illegal base32 data: bad character")
    else Ok(BitsToBytes(bits.value[..8 * DecodedLength(|t|)]))
  }

  /** The bits of a prefix of the text are the prefix of its bits. */
  lemma {:induction false} CharsToBitsPrefix(s: string, m: nat)
    requires m <= |s| && CharsToBits(s).Some?
    ensures CharsToBits(s[..m]) == Some(CharsToBits(s).value[..5 * m])
  {
    if m > 0 {
      var v := CharValue(s[0]).value;
      var rest := CharsToBits(s[1..]).value;
      assert s[..m][1..] == s[1..][..m - 1];
      assert s[..m][0] == s[0];
      CharsToBitsPrefix(s[1..], m - 1);
      assert (ToBits(v, 5) + rest)[..5 * m] == ToBits(v, 5) + rest[..5 * (m - 1)];
    }
  }

  /**
   * A final group of 1, 3 or 6 characters changes nothing: the text decodes
   * as its whole groups alone.
   */
  lemma PartialGroupDropped(s: string)
    requires forall i :: 0 <= i < |s| ==> s[i] != '\r' && s[i] != '\n'
    requires forall i :: 0 <= i < |s| ==> InAlphabet(s[i])
    requires BadLength(|s|)
    ensures Decode(s) == Decode(s[..|s| / 8 * 8])
  {
    var m := |s| / 8 * 8;
    var bits := CharsToBits(s).value;
    WholeGroupsPrefix(s, m);
    CharsToBitsPrefix(s, m);
    assert DecodedLength(m) == DecodedLength(|s|);
    assert bits[..5 * m][..8 * DecodedLength(m)] == bits[..8 * DecodedLength(|s|)];
  }

  /** A prefix of a text without line breaks has none either. */
  lemma WholeGroupsPrefix(s: string, m: nat)
    requires m <= |s|
    requires forall i :: 0 <= i < |s| ==> s[i] != '\r' && s[i] != '\n'
    ensures StripNewlines(s[..m]) == s[..m] && StripNewlines(s) == s
  {
    assert forall i :: 0 <= i < m ==> s[..m][i] == s[i];
  }

  /** The example of a zone label read as data: "TUNNEL" is six characters of one partial group, so no bytes and no error. */
  lemma SixCharsDecodeToNothing()
    ensures Decode("TUNNEL") == Ok([])
  {
    var s := "TUNNEL";
    assert forall i :: 0 <= i < |s| ==> s[i] != '\r' && s[i] != '\n' && InAlphabet(s[i]);
    assert StripNewlines(s) == s;
    assert DecodedLength(6) == 0;
  }

  lemma {:induction false} CharsOfGroup(bs: seq<bool>)
    requires |bs| % 5 == 0
    ensures CharsToBits(Group(bs)) == Some(bs)
  {
    if bs != [] {
      var s := Group(bs);
      assert Pow2(5) == 32;
      var v := FromBits(bs[..5]);
      assert s[0] == Symbol(v);
      assert s[1..] == Group(bs[5..]);
      CharsOfGroup(bs[5..]);
      ToFromBits(bs[..5]);
      assert bs == bs[..5] + bs[5..];
    }
  }

  lemma EncodedLengthIsGood(n: nat)
    ensures !BadLength((8 * n + 4) / 5)
  {
    var q, r := n / 5, n % 5;
    assert n == 5 * q + r;
    assert (8 * n + 4) / 5 == 8 * q + (8 * r + 4) / 5;
  }

  lemma WholeBytes(n: nat, pad: nat)
    requires pad < 8
    ensures (8 * n + pad) / 8 * 8 == 8 * n
  {
  }

  /** Decoding reads back exactly the bytes that were encoded. */
  lemma DecodeEncode(d: seq<byte>)
    ensures Decode(Encode(d)) == Ok(d)
  {
    var padded := PadTo5(BytesToBits(d));
    var s := Encode(d);
    assert StripNewlines(s) == s;
    EncodedLengthIsGood(|d|);
    assert 8 * DecodedLength(|s|) == |padded| / 8 * 8;
    CharsOfGroup(padded);
    PaddingDropped(d);
    BitsBytesRoundTrip(d);
  }

  /** Keeping whole bytes of the padded stream drops exactly the padding. */
  lemma PaddingDropped(d: seq<byte>)
    ensures var padded := PadTo5(BytesToBits(d)); padded[..|padded| / 8 * 8] == BytesToBits(d)
  {
    var bits := BytesToBits(d);
    var padded := PadTo5(bits);
    WholeBytes(|d|, |padded| - |bits|);
  }

  /** A lower-case letter anywhere in the text makes decoding fail. */
  lemma LowerCaseRejected(s: string, i: nat)
    requires i < |s| && Text.IsLowerAscii(s[i])
    ensures Decode(s).Err?
  {
    var t := StripNewlines(s);
    if Decode(s).Ok? {
      assert forall j :: 0 <= j < |t| ==> InAlphabet(t[j]);
      StripKeeps(s, i);
    }
  }

  lemma DecodedHasNoLowerCase(s: string)
    ensures Decode(s).Ok? ==> forall i :: 0 <= i < |s| ==> !Text.IsLowerAscii(s[i])
  {
    forall i | 0 <= i < |s| && Decode(s).Ok? ensures !Text.IsLowerAscii(s[i]) {
      if Text.IsLowerAscii(s[i]) { LowerCaseRejected(s, i); }
    }
  }

  /** A character that is not a line break survives `StripNewlines`. */
  lemma {:induction false} StripKeeps(s: string, i: nat)
    requires i < |s| && s[i] != '\r' && s[i] != '\n'
    ensures s[i] in StripNewlines(s)
  {
    if i > 0 {
      assert s[1..][i - 1] == s[i];
      StripKeeps(s[1..], i - 1);
    }
  }

  lemma FromBitsSnoc(bs: seq<bool>, b: bool)
    ensures FromBits(bs + [b]) == 2 * FromBits(bs) + (if b then 1 else 0)
  {
    assert (bs + [b])[..|bs|] == bs;
  }

  lemma GroupOfTwo(g1: seq<bool>, g2: seq<bool>)
    requires |g1| == 5 && |g2| == 5
    ensures Group(g1 + g2) == [Symbol(FromBits(g1)), Symbol(FromBits(g2))]
  {
    var bs := g1 + g2;
    assert bs[..5] == g1 && bs[5..] == g2;
    assert g2[..5] == g2 && g2[5..] == [];
  }

  lemma AllOnesBits()
    ensures BytesToBits([0xFF]) == [true, true, true, true, true, true, true, true]
  {
    var t := true;
    assert ToBits(1, 1) == [t];
    assert ToBits(3, 2) == [t, t];
    assert ToBits(7, 3) == [t, t, t];
    assert ToBits(15, 4) == [t, t, t, t];
    assert ToBits(31, 5) == [t, t, t, t, t];
    assert ToBits(63, 6) == [t, t, t, t, t, t];
    assert ToBits(127, 7) == [t, t, t, t, t, t, t];
    assert ToBits(255, 8) == [t, t, t, t, t, t, t, t];
    assert BytesToBits([0xFF]) == ToBits(0xFF, 8) + BytesToBits([]);
  }

  /** The two 5-bit groups of 11111111 00: 31 and 28. */
  lemma AllOnesGroupValues()
    ensures FromBits([true, true, true, true, true]) == 31
    ensures FromBits([true, true, true, false, false]) == 28
  {
    var t, f := true, false;
    FromBitsSnoc([], t);
    FromBitsSnoc([t], t);
    FromBitsSnoc([t, t], t);
    FromBitsSnoc([t, t, t], t);
    FromBitsSnoc([t, t, t, t], t);
    FromBitsSnoc([t, t, t], f);
    FromBitsSnoc([t, t, t, f], f);
    assert [t, t, t, t] + [t] == [t, t, t, t, t] && [t, t, t, f] + [f] == [t, t, t, f, f];
    assert [t, t, t] + [t] == [t, t, t, t] && [t, t, t] + [f] == [t, t, t, f];
    assert [t, t] + [t] == [t, t, t] && [t] + [t] == [t, t] && [] + [t] == [t];
  }

  /** A 5-bit group of zeros is 0. */
  lemma ZeroGroupValue()
    ensures FromBits([false, false, false, false, false]) == 0
  {
    var f := false;
    FromBitsSnoc([], f);
    FromBitsSnoc([f], f);
    FromBitsSnoc([f, f], f);
    FromBitsSnoc([f, f, f], f);
    FromBitsSnoc([f, f, f, f], f);
    assert [f, f, f, f] + [f] == [f, f, f, f, f] && [f, f, f] + [f] == [f, f, f, f];
    assert [f, f] + [f] == [f, f, f] && [f] + [f] == [f, f] && [] + [f] == [f];
  }

  /** One byte of ones: the bit stream 11111111 00 reads as symbols 31 and 28. */
  lemma EncodeAllOnes()
    ensures Encode([0xFF]) == "74"
  {
    var t, f := true, false;
    AllOnesBits();
    assert PadTo5(BytesToBits([0xFF])) == [t, t, t, t, t] + [t, t, t, f, f];
    GroupOfTwo([t, t, t, t, t], [t, t, t, f, f]);
    AllOnesGroupValues();
    assert Symbol(31) == '7' && Symbol(28) == '4';
  }

  /** One zero byte: the bit stream 00000000 00 reads as symbols 0 and 0. */
  lemma EncodeZero()
    ensures Encode([0]) == "AA"
  {
    var f := false;
    assert BytesToBits([0]) == ToBits(0, 8) + BytesToBits([]);
    assert ToBits(0, 8) == [f, f, f, f, f, f, f, f];
    assert PadTo5(BytesToBits([0])) == [f, f, f, f, f] + [f, f, f, f, f];
    GroupOfTwo([f, f, f, f, f], [f, f, f, f, f]);
    ZeroGroupValue();
    assert Symbol(0) == 'A';
  }
}
