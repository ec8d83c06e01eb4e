/** internal/dnsutil.go: data labels and IPv6 payload packing. */
module DnsUtil {
  import opened Wrappers
  import Text
  import Base32

  /** The characters a data label may hold: RFC 4648 section 6 symbols in lower case. */
  predicate IsLabelChar(c: char)
  {
    'a' <= c <= 'z' || '2' <= c <= '7'
  }

  /** `EncodeDataToLabel`: unpadded Base32 of the data, lower-cased for DNS. */
  function EncodeDataToLabel(data: seq<byte>): (text: string)
    ensures |text| == (8 * |data| + 4) / 5
    ensures forall i :: 0 <= i < |text| ==> IsLabelChar(text[i])
    ensures '=' !in text
  {
    Text.ToLower(Base32.Encode(data))
  }

  /** A client chunk of at most 30 bytes gives a label of at most 48 characters, under DNS's 63. */
  lemma ChunkLabelFits(data: seq<byte>)
    requires |data| <= 30
    ensures |EncodeDataToLabel(data)| <= 48 < 63
  {
  }

  /** `DecodeLabelToData`: plain Base32 decoding, with no case folding. */
  function DecodeLabelToData(text: string): (r: Result<seq<byte>>)
    ensures r.Ok? ==> forall i :: 0 <= i < |text| ==> !Text.IsLowerAscii(text[i])
  {
    Base32.DecodedHasNoLowerCase(text);
    Base32.Decode(text)
  }

  /** Decoding inverts encoding once the label is upper-cased again. */
  lemma DecodeInvertsUpperCasedLabel(data: seq<byte>)
    ensures DecodeLabelToData(Text.ToUpper(EncodeDataToLabel(data))) == Ok(data)
  {
    var enc := Base32.Encode(data);
    assert Text.ToUpper(Text.ToLower(enc)) == enc;
    Base32.DecodeEncode(data);
  }

  /**
   * The lower-case label itself decodes only when it holds no letter at all
   * (every symbol one of `2`-`7`), and then to the original data.
   */
  lemma DecodeOfLowerCaseLabel(data: seq<byte>)
    ensures var text := EncodeDataToLabel(data);
      var r := DecodeLabelToData(text);
      (r.Ok? <==> forall i :: 0 <= i < |text| ==> !Text.IsLowerAscii(text[i]))
      && (r.Ok? ==> r.value == data)
  {
    var enc := Base32.Encode(data);
    var text := EncodeDataToLabel(data);
    if forall i :: 0 <= i < |text| ==> !Text.IsLowerAscii(text[i]) {
      assert text == enc;
      Base32.DecodeEncode(data);
    }
  }

  /** Both outcomes happen: `[0xFF]` encodes to the letter-free "74", `[0]` to "aa". */
  lemma LowerCaseLabelExamples()
    ensures EncodeDataToLabel([0xFF]) == "74" && DecodeLabelToData("74") == Ok([0xFF])
    ensures EncodeDataToLabel([0]) == "aa" && DecodeLabelToData("aa").Err?
  {
    Base32.EncodeAllOnes();
    Base32.EncodeZero();
    assert Text.ToLower("74") == "74";
    assert Text.ToLower("AA") == "aa";
    DecodeOfLowerCaseLabel([0xFF]);
    assert Text.IsLowerAscii("aa"[0]);
    Base32.LowerCaseRejected("aa", 0);
  }

  /** `PackDataToIPv6`: at most 16 bytes, zero-filled to a full 16-byte address. */
  function PackDataToIPv6(data: seq<byte>): (r: Result<seq<byte>>)
    ensures r.Ok? <==> |data| <= 16
    ensures r.Ok? ==> |r.value| == 16 && r.value[..|data|] == data
    ensures r.Ok? ==> forall i :: |data| <= i < 16 ==> r.value[i] == 0
  {
    if |data| > 16 then Err("data too large for IPv6")
    else Ok(data + Zeros(16 - |data|))
  }

  /** The `::ffff:0:0/96` prefix `To16` puts in front of an IPv4 address. */
  const V4InV6Prefix: seq<byte> := [0, 0, 0, 0, 0, 0, 0, 0, 0, 0, 0xff, 0xff]

  /** `UnpackIPv6ToData`: `ip.To16()`, which is `nil` for an address of neither 4 nor 16 bytes. */
  function UnpackIPv6ToData(ip: seq<byte>): (data: seq<byte>)
    ensures |data| == 16 || data == []
    ensures |ip| == 16 ==> data == ip
  {
    if |ip| == 16 then ip
    else if |ip| == 4 then V4InV6Prefix + ip
    else []
  }

  /** Unpacking gives the data back followed by the zero padding: the original length is lost. */
  lemma UnpackPack(data: seq<byte>)
    requires |data| <= 16
    ensures UnpackIPv6ToData(PackDataToIPv6(data).value) == data + Zeros(16 - |data|)
  {
  }

  /** Data that differs only in trailing zero bytes packs to the same address. */
  lemma PackForgetsLength(data: seq<byte>, k: nat)
    requires |data| + k <= 16
    ensures PackDataToIPv6(data) == PackDataToIPv6(data + Zeros(k))
  {
    var longer := data + Zeros(k);
    assert longer + Zeros(16 - |longer|) == data + Zeros(16 - |data|);
  }
}
