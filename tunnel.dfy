/**
 * The two ends together: what the server makes of the names the client sends.
 */
module Tunnel {
  import opened Wrappers
  import Text
  import Hex
  import Base32
  import DnsUtil
  import Protocol
  import AuraServer
  import AuraClient

  /** The `%04x` field holds hex digits only, so neither separator. */
  lemma Format04xHasNoSeparators(n: uint16)
    ensures '-' !in Hex.Format04x(n) && '.' !in Hex.Format04x(n)
  {
    AuraClient.HexHasNoSeparators(Hex.Format04x(n));
  }

  /** A data label never holds a dot. */
  lemma LabelHasNoDot(data: seq<byte>)
    ensures '.' !in DnsUtil.EncodeDataToLabel(data)
  {
    var text := DnsUtil.EncodeDataToLabel(data);
    forall i | 0 <= i < |text| ensures text[i] != '.' {
      assert DnsUtil.IsLabelChar(text[i]);
    }
  }

  /** The server decodes every label the client encodes back to the client's data. */
  lemma LabelRoundTrip(data: seq<byte>)
    ensures AuraServer.DecodeLabelToDataUpper(DnsUtil.EncodeDataToLabel(data)) == Ok(data)
  {
    DnsUtil.DecodeInvertsUpperCasedLabel(data);
  }

  /**
   * An upstream query name parses on the server into the client's nonce,
   * sequence field, session and data label, whatever the domain; the field
   * reads back as the client's counter, and the label as the client's data.
   */
  lemma UpstreamNameRoundTrip(nonce: string, seqNum: uint16, sessionID: string, data: seq<byte>, domain: string)
    requires forall i :: 0 <= i < |nonce| ==> Hex.IsLowerDigit(nonce[i])
    requires forall i :: 0 <= i < |sessionID| ==> Hex.IsLowerDigit(sessionID[i])
    ensures var f := AuraServer.ParseQueryName(AuraClient.UpstreamQueryName(nonce, seqNum, sessionID, data, domain));
      f == Ok(AuraServer.QueryFields(nonce, Hex.Format04x(seqNum), sessionID, DnsUtil.EncodeDataToLabel(data)))
      && AuraServer.SeqNumber(f.value.seqText) == Some(seqNum)
      && AuraServer.DecodeLabelToDataUpper(f.value.dataLabel) == Ok(data)
  {
    var seqText := Hex.Format04x(seqNum);
    var dataLabel := DnsUtil.EncodeDataToLabel(data);
    AuraClient.HexHasNoSeparators(nonce);
    AuraClient.HexHasNoSeparators(sessionID);
    Format04xHasNoSeparators(seqNum);
    LabelHasNoDot(data);
    assert AuraClient.UpstreamQueryName(nonce, seqNum, sessionID, data, domain)
      == nonce + "-" + seqText + "-" + sessionID + "" + "." + dataLabel + "." + domain;
    AuraServer.ParseQueryNameOf(nonce, seqText, sessionID, "", dataLabel, domain);
    AuraServer.SeqNumberOfFormat04x(seqNum);
    LabelRoundTrip(data);
  }

  /**
   * When the client's domain is the server's zone, its upstream AAAA query
   * passes every filter of `handleDNS` and is admitted under the client's
   * sequence number.
   */
  lemma UpstreamQueryAdmitted(nonce: string, seqNum: uint16, sessionID: string, data: seq<byte>, zone: string)
    requires forall i :: 0 <= i < |nonce| ==> Hex.IsLowerDigit(nonce[i])
    requires forall i :: 0 <= i < |sessionID| ==> Hex.IsLowerDigit(sessionID[i])
    ensures var name := AuraClient.UpstreamQueryName(nonce, seqNum, sessionID, data, zone);
      AuraServer.Admit(AuraServer.Msg([AuraServer.Question(name, AuraServer.TypeAAAA)]), zone)
        == Some((AuraServer.QueryFields(nonce, Hex.Format04x(seqNum), sessionID, DnsUtil.EncodeDataToLabel(data)), seqNum))
  {
    var name := AuraClient.UpstreamQueryName(nonce, seqNum, sessionID, data, zone);
    UpstreamNameRoundTrip(nonce, seqNum, sessionID, data, zone);
    assert name[|name| - |zone|..] == zone;
  }

  /**
   * The names of `BuildQueryName` parse back into the fields they were built
   * from, provided the fields hold no separators.
   */
  lemma BuildQueryNameRoundTrip(nonce: string, seqText: string, sessionID: string, dataLabel: string)
    requires '-' !in nonce && '.' !in nonce && '-' !in seqText && '.' !in seqText
    requires '-' !in sessionID && '.' !in sessionID && '.' !in dataLabel
    ensures AuraServer.ParseQueryName(Protocol.BuildQueryName(nonce, seqText, sessionID, dataLabel))
      == Ok(AuraServer.QueryFields(nonce, seqText, sessionID, dataLabel))
  {
    assert Protocol.BuildQueryName(nonce, seqText, sessionID, dataLabel)
      == nonce + "-" + seqText + "-" + sessionID + "" + "." + dataLabel + "." + "aura.net.";
    AuraServer.ParseQueryNameOf(nonce, seqText, sessionID, "", dataLabel, "aura.net.");
  }

  /** The poll's label in the `aura.net.` zone decodes, once upper-cased, to two bytes. */
  lemma AuraLabelDecodes()
    ensures AuraServer.DecodeLabelToDataUpper("aura").Ok?
    ensures |AuraServer.DecodeLabelToDataUpper("aura").value| == 2
  {
    var r := Text.ToUpper("aura");
    assert r[0] == 'A' && r[1] == 'U' && r[2] == 'R' && r[3] == 'A';
    assert r == "AURA";
    assert Base32.StripNewlines("AURA") == "AURA";
    assert Base32.CharValue('A').Some? && Base32.CharValue('U').Some? && Base32.CharValue('R').Some?;
  }

  /** The poll's sequence field reads as `0xffff`. */
  lemma PollSequence()
    ensures AuraServer.SeqNumber("ffff") == Some(0xffff)
  {
    assert Hex.Format04x(0xffff) == "ffff";
    AuraServer.SeqNumberOfFormat04x(0xffff);
  }

  /**
   * A poll carries no data label, so the server takes the zone's first label
   * for one: in `aura.net.` the poll parses with sequence number `0xffff` and
   * label `aura`, which decodes to two bytes of data.
   */
  lemma PollNameParsesAsData(nonce: string, sessionID: string)
    requires forall i :: 0 <= i < |nonce| ==> Hex.IsLowerDigit(nonce[i])
    requires forall i :: 0 <= i < |sessionID| ==> Hex.IsLowerDigit(sessionID[i])
    ensures var f := AuraServer.ParseQueryName(AuraClient.PollQueryName(nonce, sessionID, "aura.net."));
      f == Ok(AuraServer.QueryFields(nonce, "ffff", sessionID, "aura"))
      && AuraServer.SeqNumber(f.value.seqText) == Some(0xffff)
      && AuraServer.DecodeLabelToDataUpper(f.value.dataLabel).Ok?
      && |AuraServer.DecodeLabelToDataUpper(f.value.dataLabel).value| == 2
  {
    AuraClient.HexHasNoSeparators(nonce);
    AuraClient.HexHasNoSeparators(sessionID);
    assert AuraClient.PollQueryName(nonce, sessionID, "aura.net.")
      == nonce + "-" + "ffff" + "-" + sessionID + "" + "." + "aura" + "." + "net.";
    AuraServer.ParseQueryNameOf(nonce, "ffff", sessionID, "", "aura", "net.");
    PollSequence();
    AuraLabelDecodes();
  }

  /**
   * Consequently the first poll of a session is stored as upstream chunk
   * `0xffff`, and from then on the client's real chunk numbered `0xffff` is
   * dropped as a duplicate.
   */
  lemma PollTakesSequenceFFFF(st: AuraServer.SessionState, later: string)
    requires AuraServer.WellFormed(st) && !AuraServer.Seen(st, 0xffff)
    ensures var st1 := AuraServer.Absorb(st, 0xffff, "aura");
      0xffff in st1.outBuffer && |st1.outBuffer[0xffff]| == 2 && AuraServer.Seen(st1, 0xffff)
      && AuraServer.Absorb(st1, 0xffff, later) == st1
  {
    AuraLabelDecodes();
    AuraServer.AbsorbSuppressesDuplicates(st, 0xffff, "aura", later);
  }

  /**
   * A zone whose first label has six letters, such as `tunnel.example.com.`:
   * the label decodes to no bytes and no error, because a final group of six
   * characters yields nothing, so the poll still stores an empty chunk under
   * `0xffff` and marks it seen.
   */
  lemma SixLetterZoneLabelStored(st: AuraServer.SessionState)
    requires AuraServer.WellFormed(st) && !AuraServer.Seen(st, 0xffff)
    ensures var st1 := AuraServer.Absorb(st, 0xffff, "tunnel");
      0xffff in st1.outBuffer && st1.outBuffer[0xffff] == [] && AuraServer.Seen(st1, 0xffff)
  {
    var r := Text.ToUpper("tunnel");
    assert r[0] == 'T' && r[1] == 'U' && r[2] == 'N' && r[3] == 'N' && r[4] == 'E' && r[5] == 'L';
    assert r == "TUNNEL";
    Base32.SixCharsDecodeToNothing();
    AuraServer.AbsorbSuppressesDuplicates(st, 0xffff, "tunnel", "");
  }
}
