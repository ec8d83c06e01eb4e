/**
 * internal/server.go: the authoritative DNS server. It reads upstream chunks
 * out of AAAA query names, keeps per-session buffers, and answers each query
 * with up to 16 downstream bytes packed into one IPv6 address.
 */
module AuraServer {
  import opened Wrappers
  import Text
  import Hex
  import Base32

  const ZoneName: string := "aura.net."
  const MaxIPv6Payload: nat := 16
  /** The DNS type code of an AAAA record (RFC 3596, section 2.1). */
  const TypeAAAA: nat := 28

  // ---------------------------------------------------------------------------
  // Pure helpers

  datatype QueryFields = QueryFields(nonce: string, seqText: string, sessionID: string, dataLabel: string)

  /**
   * `ParseQueryName`: the name must split on `.` into at least three pieces and
   * its first piece on `-` into at least three; the result is the first three
   * `-`-pieces and the second `.`-piece, whatever follows.
   */
  function ParseQueryName(name: string): (r: Result<QueryFields>)
    ensures r.Ok? <==> |Text.Split(name, '.')| >= 3 && |Text.Split(Text.Split(name, '.')[0], '-')| >= 3
    ensures r.Ok? ==> var f := r.value;
      '.' !in f.nonce && '.' !in f.seqText && '.' !in f.sessionID && '.' !in f.dataLabel
      && '-' !in f.nonce && '-' !in f.seqText && '-' !in f.sessionID
      && Text.HasPrefix(name, f.nonce + "-" + f.seqText + "-" + f.sessionID)
  {
    var parts := Text.Split(name, '.');
    if |parts| < 3 then Err("invalid qname format")
    else
      var header := Text.Split(parts[0], '-');
      if |header| < 3 then Err("invalid header format")
      else
        HeaderStartsName(name);
        Text.SplitPiecesAvoid(parts[0], '-', '.');
        Ok(QueryFields(header[0], header[1], header[2], parts[1]))
  }

  lemma HeaderStartsName(name: string)
    requires |Text.Split(name, '.')| >= 3 && |Text.Split(Text.Split(name, '.')[0], '-')| >= 3
    ensures var h := Text.Split(Text.Split(name, '.')[0], '-');
      Text.HasPrefix(name, h[0] + "-" + h[1] + "-" + h[2])
  {
    var first := Text.Split(name, '.')[0];
    var h := Text.Split(first, '-');
    Text.SplitHead(first, '-');
    var rest1 := first[|h[0]| + 1..];
    Text.SplitHead(rest1, '-');
    var rest2 := rest1[|h[1]| + 1..];
    Text.SplitFirst(rest2, '-');
    Text.PrefixThrough(rest1, h[1], '-', h[2]);
    Text.PrefixThrough(first, h[0], '-', h[1] + "-" + h[2]);
    Text.JoinThreeAssoc(h[0], h[1], h[2], '-');
    Text.SplitFirst(name, '.');
    Text.PrefixOfPrefix(name, first, h[0] + "-" + h[1] + "-" + h[2]);
  }

  /** The first label `nonce-seq-session<extra>` holds no dot when none of its parts does. */
  lemma HeaderHasNoDot(nonce: string, seqText: string, sessionID: string, extra: string)
    requires '.' !in nonce && '.' !in seqText && '.' !in sessionID && '.' !in extra
    ensures '.' !in nonce + "-" + seqText + "-" + sessionID + extra
  {
    var first := nonce + "-" + seqText + "-" + sessionID + extra;
    forall i | 0 <= i < |first| ensures first[i] != '.' {
      if i < |nonce| { assert first[i] == nonce[i]; }
      else if i == |nonce| { }
      else if i < |nonce| + 1 + |seqText| { assert first[i] == seqText[i - |nonce| - 1]; }
      else if i == |nonce| + 1 + |seqText| { }
      else if i < |nonce| + 2 + |seqText| + |sessionID| { assert first[i] == sessionID[i - |nonce| - 2 - |seqText|]; }
      else { assert first[i] == extra[i - |nonce| - 2 - |seqText| - |sessionID|]; }
    }
  }

  /** The session piece of the first label ends at the first `-` of whatever follows it. */
  lemma SessionPieceSplit(sessionID: string, extra: string)
    requires '-' !in sessionID && (extra == "" || extra[0] == '-')
    ensures Text.Split(sessionID + extra, '-')[0] == sessionID
  {
    if extra == "" {
      assert sessionID + extra == sessionID;
    } else {
      var tail := extra[1..];
      assert extra == [extra[0]] + tail;
      assert sessionID + extra == sessionID + ['-'] + tail;
      Text.SplitAfterPiece(sessionID, '-', tail);
    }
  }

  /** The first label splits on `-` into the three fields first. */
  lemma HeaderSplit(nonce: string, seqText: string, sessionID: string, extra: string)
    requires '-' !in nonce && '-' !in seqText && '-' !in sessionID && (extra == "" || extra[0] == '-')
    ensures var h := Text.Split(nonce + "-" + seqText + "-" + sessionID + extra, '-');
      |h| >= 3 && h[0] == nonce && h[1] == seqText && h[2] == sessionID
  {
    var first := nonce + "-" + seqText + "-" + sessionID + extra;
    assert first == nonce + "-" + (seqText + "-" + (sessionID + extra));
    Text.SplitAfterPiece(nonce, '-', seqText + "-" + (sessionID + extra));
    Text.SplitAfterPiece(seqText, '-', sessionID + extra);
    SessionPieceSplit(sessionID, extra);
  }

  /** `first.label.rest` splits on `.` into `first`, `label` and at least one more piece. */
  lemma NameSplit(first: string, dataLabel: string, rest: string)
    requires '.' !in first && '.' !in dataLabel
    ensures var parts := Text.Split(first + "." + dataLabel + "." + rest, '.');
      |parts| >= 3 && parts[0] == first && parts[1] == dataLabel
  {
    Text.JoinThreeAssoc(first, dataLabel, rest, '.');
    Text.SplitAfterPiece(first, '.', dataLabel + "." + rest);
    Text.SplitAfterPiece(dataLabel, '.', rest);
  }

  /** A name of the shape `nonce-seq-session<extra>.label.<rest>` parses back into its fields. */
  lemma ParseQueryNameOf(nonce: string, seqText: string, sessionID: string, extra: string, dataLabel: string, rest: string)
    requires '-' !in nonce && '.' !in nonce && '-' !in seqText && '.' !in seqText
    requires '-' !in sessionID && '.' !in sessionID && '.' !in dataLabel
    requires '.' !in extra && (extra == "" || extra[0] == '-')
    ensures ParseQueryName(nonce + "-" + seqText + "-" + sessionID + extra + "." + dataLabel + "." + rest)
      == Ok(QueryFields(nonce, seqText, sessionID, dataLabel))
  {
    HeaderHasNoDot(nonce, seqText, sessionID, extra);
    HeaderSplit(nonce, seqText, sessionID, extra);
    NameSplit(nonce + "-" + seqText + "-" + sessionID + extra, dataLabel, rest);
  }

  /**
   * `DecodeLabelToData` of this file: the empty label is empty data with no
   * error; any other label is upper-cased and then Base32-decoded.
   */
  function DecodeLabelToDataUpper(dataLabel: string): (r: Result<seq<byte>>)
    ensures dataLabel == "" ==> r == Ok([])
  {
    if dataLabel == "" then Ok([]) else Base32.Decode(Text.ToUpper(dataLabel))
  }

  /** Decoding here ignores the case the label was written in. */
  lemma DecodeIgnoresCase(dataLabel: string)
    ensures DecodeLabelToDataUpper(Text.ToLower(dataLabel)) == DecodeLabelToDataUpper(dataLabel)
  {
    Text.UpperOfLower(dataLabel);
  }

  /**
   * `PackDataToIPv6` of this file: never fails; the first 16 bytes are copied
   * into a zeroed 16-byte address and anything longer is cut off.
   */
  function PackDataToIPv6Truncating(data: seq<byte>): (ip: seq<byte>)
    ensures |ip| == 16
    ensures |data| <= 16 ==> ip[..|data|] == data && forall i :: |data| <= i < 16 ==> ip[i] == 0
    ensures |data| > 16 ==> ip == data[..16]
  {
    if |data| <= 16 then data + Zeros(16 - |data|) else data[..16]
  }

  /**
   * The sequence number `handleDNS` reads from the seq field: the first two
   * bytes `hex.DecodeString` produced, big-endian, provided it produced
   * exactly two. The decoder's error is ignored, so only the bytes matter.
   */
  function SeqNumber(seqText: string): Option<uint16>
  {
    var b := Hex.DecodePrefix(seqText);
    if |b| != 2 then None else Some(BigEndian16(b[0], b[1]))
  }

  /** The client's `%04x` field reads back as the same sequence number. */
  lemma SeqNumberOfFormat04x(n: uint16)
    ensures SeqNumber(Hex.Format04x(n)) == Some(n)
  {
    var b: seq<byte> := [n / 256, n % 256];
    Hex.Format04xIsBigEndianHex(n);
    Hex.DecodeEncode(b);
    assert Hex.DecodePrefix(Hex.Format04x(n)) == b;
    BigEndian16OfHalves(n);
  }

  lemma BigEndian16OfHalves(n: uint16)
    ensures BigEndian16(n / 256, n % 256) == n
  {
    assert n == 256 * (n / 256) + n % 256;
  }

  /** Two hexadecimal digits, in either case, at `s[k]` and `s[k + 1]`. */
  predicate HexPairAt(s: string, k: nat)
  {
    k + 1 < |s| && Hex.DigitValue(s[k]).Some? && Hex.DigitValue(s[k + 1]).Some?
  }

  /**
   * Trailing junk after four hex digits is accepted, because the decoder
   * stops at a bad or odd digit and its error is dropped: a seq field is read
   * exactly when it starts with two digit pairs and the next two characters
   * are not a third pair, and then only those four digits count.
   */
  lemma SeqNumberIgnoresDecodeError(s: string)
    ensures SeqNumber(s).Some? <==> HexPairAt(s, 0) && HexPairAt(s, 2) && !HexPairAt(s, 4)
    ensures SeqNumber(s).Some? ==> SeqNumber(s) == SeqNumber(s[..4])
    ensures SeqNumber(s).Some? ==>
      SeqNumber(s).value == BigEndian16(16 * Hex.DigitValue(s[0]).value + Hex.DigitValue(s[1]).value,
                                        16 * Hex.DigitValue(s[2]).value + Hex.DigitValue(s[3]).value)
  {
    if !HexPairAt(s, 0) {
      assert Hex.DecodePrefix(s) == [];
    } else {
      var t := s[2..];
      Hex.DecodePair(s, Hex.DigitValue(s[0]).value, Hex.DigitValue(s[1]).value);
      if !HexPairAt(s, 2) {
        assert !HexPairAt(t, 0);
        assert Hex.DecodePrefix(t) == [];
      } else {
        assert t[0] == s[2] && t[1] == s[3] && t[2..] == s[4..];
        Hex.DecodePair(t, Hex.DigitValue(s[2]).value, Hex.DigitValue(s[3]).value);
        if HexPairAt(s, 4) {
          assert s[4..][0] == s[4] && s[4..][1] == s[5];
          Hex.DecodePair(s[4..], Hex.DigitValue(s[4]).value, Hex.DigitValue(s[5]).value);
        } else {
          assert Hex.DecodePrefix(s[4..]) == [];
          FirstFourDigits(s);
        }
      }
    }
  }

  /** Four digits alone decode to the same two bytes as at the front of a longer field. */
  lemma FirstFourDigits(s: string)
    requires HexPairAt(s, 0) && HexPairAt(s, 2)
    ensures var b := Hex.DecodePrefix(s[..4]);
      |b| == 2 && b[0] == 16 * Hex.DigitValue(s[0]).value + Hex.DigitValue(s[1]).value
      && b[1] == 16 * Hex.DigitValue(s[2]).value + Hex.DigitValue(s[3]).value
  {
    var f := s[..4];
    assert f[0] == s[0] && f[1] == s[1] && f[2] == s[2] && f[3] == s[3];
    Hex.DecodePair(f, Hex.DigitValue(s[0]).value, Hex.DigitValue(s[1]).value);
    assert f[2..][0] == s[2] && f[2..][1] == s[3] && f[2..][2..] == [];
    Hex.DecodePair(f[2..], Hex.DigitValue(s[2]).value, Hex.DigitValue(s[3]).value);
  }

  /** The two fields that show it: `abcdz` reads as `0xabcd`, while `abcdef` decodes to three bytes and is dropped. */
  lemma SeqNumberExamples()
    ensures SeqNumber("abcdz") == Some(0xabcd)
    ensures SeqNumber("abcdef") == None
  {
    SeqNumberIgnoresDecodeError("abcdz");
    SeqNumberIgnoresDecodeError("abcdef");
    assert Hex.DigitValue('a') == Some(10) && Hex.DigitValue('b') == Some(11);
    assert Hex.DigitValue('c') == Some(12) && Hex.DigitValue('d') == Some(13);
    assert Hex.DigitValue('e') == Some(14) && Hex.DigitValue('f') == Some(15);
    assert Hex.DigitValue('z') == None;
    var m := BigEndian16(0xab, 0xcd);
    assert m == 256 * (m / 256) + m % 256;
  }


  // ---------------------------------------------------------------------------
  // Session state as a value, and what handleDNS does to it

  /** The parts of a `session` that `handleDNS`, `forwardToWhatsApp` and `readFromWhatsApp` touch. */
  datatype SessionState = SessionState(inBuffer: seq<byte>, outBuffer: map<uint16, seq<byte>>, seqSeen: map<uint16, bool>)

  const EmptySession: SessionState := SessionState([], map[], map[])

  /** `sess.seqSeen[n]`: a missing key reads as false. */
  predicate Seen(st: SessionState, n: uint16)
  {
    n in st.seqSeen && st.seqSeen[n]
  }

  /** The session invariant: only `true` is ever stored, and every buffered chunk was marked seen. */
  predicate WellFormed(st: SessionState)
  {
    (forall k :: k in st.seqSeen ==> st.seqSeen[k]) && st.outBuffer.Keys <= st.seqSeen.Keys
  }

  /**
   * The upstream half of `handleDNS`: a non-empty label that decodes is
   * buffered under its sequence number and the number is marked seen, unless
   * it was seen before.
   */
  function Absorb(st: SessionState, n: uint16, dataLabel: string): SessionState
  {
    if dataLabel == "" then st
    else match DecodeLabelToDataUpper(dataLabel)
      case Ok(data) =>
        if Seen(st, n) then st
        else st.(outBuffer := st.outBuffer[n := data], seqSeen := st.seqSeen[n := true])
      case Err(_) => st
  }

  /**
   * Duplicate suppression: once a sequence number is seen, no later label for
   * it changes anything; a label stored once is stored for good.
   */
  lemma AbsorbSuppressesDuplicates(st: SessionState, n: uint16, first: string, later: string)
    requires WellFormed(st)
    ensures var st1 := Absorb(st, n, first);
      WellFormed(st1) && st1.inBuffer == st.inBuffer
      && (Seen(st1, n) ==> Absorb(st1, n, later) == st1)
      && (st1 != st <==> first != "" && DecodeLabelToDataUpper(first).Ok? && !Seen(st, n))
  {
    var st1 := Absorb(st, n, first);
    if first != "" && DecodeLabelToDataUpper(first).Ok? && !Seen(st, n) {
      assert Seen(st1, n) && !Seen(st, n);
    }
  }

  /** The downstream half of `handleDNS`: the first `min(16, |buf|)` bytes leave the buffer, in order. */
  function Drain(buf: seq<byte>): (r: (seq<byte>, seq<byte>))
    ensures |r.0| == if |buf| < MaxIPv6Payload then |buf| else MaxIPv6Payload
    ensures r.0 + r.1 == buf
  {
    if |buf| > MaxIPv6Payload then (buf[..MaxIPv6Payload], buf[MaxIPv6Payload..])
    else (buf, [])
  }

  /** The payloads of `k` replies in a row. */
  function DrainTimes(buf: seq<byte>, k: nat): (payloads: seq<seq<byte>>)
    ensures |payloads| == k
    decreases k
  {
    if k == 0 then [] else [Drain(buf).0] + DrainTimes(Drain(buf).1, k - 1)
  }

  /**
   * Downstream bytes are neither lost, duplicated nor reordered: the payloads
   * of `ceil(|buf| / 16)` consecutive replies are the buffer itself, and every
   * payload but the last carries 16 bytes.
   */
  lemma {:induction false} DrainPreservesOrder(buf: seq<byte>)
    decreases |buf|
    ensures var k := (|buf| + 15) / 16;
      Flatten(DrainTimes(buf, k)) == buf
      && forall i :: 0 <= i < k - 1 ==> |DrainTimes(buf, k)[i]| == 16
  {
    var k := (|buf| + 15) / 16;
    if buf != [] {
      var (p, rest) := Drain(buf);
      assert (|rest| + 15) / 16 == k - 1;
      DrainPreservesOrder(rest);
      assert DrainTimes(buf, k) == [p] + DrainTimes(rest, k - 1);
      assert Flatten(DrainTimes(buf, k)) == p + Flatten(DrainTimes(rest, k - 1));
    }
  }

  // ---------------------------------------------------------------------------
  // The DNS messages handleDNS sees and writes

  datatype Question = Question(name: string, qtype: nat)

  datatype Msg = Msg(question: seq<Question>)

  datatype AAAARecord = AAAARecord(name: string, ttl: nat, addr: seq<byte>)

  /** `resp.SetReply(r)` with the answers appended: the question is echoed. */
  datatype Reply = Reply(question: seq<Question>, answer: seq<AAAARecord>)

  /** One `tcpConn.Read` from the WhatsApp side. */
  datatype ReadResult = Chunk(data: seq<byte>) | ReadError

  /** The bytes a run of reads delivers: everything read before the first error. */
  function Delivered(results: seq<ReadResult>): seq<byte>
  {
    if results == [] || results[0].ReadError? then [] else results[0].data + Delivered(results[1..])
  }

  /** The filtering and sequence decoding at the top of `handleDNS`. */
  function Admit(r: Msg, zone: string): Option<(QueryFields, uint16)>
  {
    if |r.question| == 0 then None
    else
      var q := r.question[0];
      if q.qtype != TypeAAAA || !Text.HasSuffix(q.name, zone) then None
      else match ParseQueryName(q.name)
        case Err(_) => None
        case Ok(f) => match SeqNumber(f.seqText)
          case None => None
          case Some(n) => Some((f, n))
  }

  /** A query is served exactly when it has a question, asks for AAAA in the zone, parses, and carries a two-byte seq field. */
  lemma AdmitConditions(r: Msg, zone: string)
    ensures Admit(r, zone).Some? <==>
      |r.question| > 0 && r.question[0].qtype == TypeAAAA && Text.HasSuffix(r.question[0].name, zone)
      && ParseQueryName(r.question[0].name).Ok?
      && |Hex.DecodePrefix(ParseQueryName(r.question[0].name).value.seqText)| == 2
    ensures Admit(r, zone).Some? ==> var (f, n) := Admit(r, zone).value;
      var b := Hex.DecodePrefix(f.seqText);
      f == ParseQueryName(r.question[0].name).value && n / 256 == b[0] && n % 256 == b[1]
  {
  }

  // ---------------------------------------------------------------------------
  // The mutable state

  /** `session`: one client session's buffers, updated in place under its mutex. */
  class Session {
    const id: string
    /** `tcpConn != nil` */
    var hasConn: bool
    var inBuffer: seq<byte>
    var outBuffer: map<uint16, seq<byte>>
    var seqSeen: map<uint16, bool>

    function State(): SessionState
      reads this
    {
      SessionState(inBuffer, outBuffer, seqSeen)
    }

    ghost predicate Valid()
      reads this
    {
      WellFormed(State())
    }

    constructor (id: string, connected: bool)
      ensures this.id == id && hasConn == connected && State() == EmptySession && Valid()
    {
      this.id := id;
      hasConn := connected;
      inBuffer := [];
      outBuffer := map[];
      seqSeen := map[];
    }

    /** Lines 118-125 of `handleDNS`: store a new chunk under its sequence number. */
    method StoreChunk(n: uint16, dataLabel: string) returns (stored: bool)
      requires Valid()
      modifies this`outBuffer, this`seqSeen
      ensures Valid()
      ensures State() == Absorb(old(State()), n, dataLabel)
      ensures stored <==> dataLabel != "" && DecodeLabelToDataUpper(dataLabel).Ok? && !old(Seen(State(), n))
    {
      stored := false;
      if dataLabel != "" {
        var data := DecodeLabelToDataUpper(dataLabel);
        var seen := n in seqSeen && seqSeen[n];
        if data.Ok? && !seen {
          outBuffer := outBuffer[n := data.value];
          seqSeen := seqSeen[n := true];
          stored := true;
        }
      }
    }

    /** Lines 131-141 of `handleDNS`: take up to 16 bytes off the front of `inBuffer`. */
    method TakePayload() returns (payload: seq<byte>)
      modifies this`inBuffer
      ensures (payload, inBuffer) == Drain(old(inBuffer))
    {
      payload := [];
      if |inBuffer| > 0 {
        if |inBuffer| > MaxIPv6Payload {
          payload := inBuffer[..MaxIPv6Payload];
          inBuffer := inBuffer[MaxIPv6Payload..];
        } else {
          payload := inBuffer;
          inBuffer := [];
        }
      }
    }

    /** One query's worth of session work in `handleDNS`: store the chunk, then take the reply payload. */
    method Exchange(n: uint16, dataLabel: string) returns (stored: bool, payload: seq<byte>)
      requires Valid()
      modifies this`inBuffer, this`outBuffer, this`seqSeen
      ensures Valid()
      ensures stored <==> dataLabel != "" && DecodeLabelToDataUpper(dataLabel).Ok? && !old(Seen(State(), n))
      ensures (payload, inBuffer) == Drain(old(inBuffer))
      ensures State() == Absorb(old(State()), n, dataLabel).(inBuffer := inBuffer)
    {
      stored := StoreChunk(n, dataLabel);
      payload := TakePayload();
    }

    /**
     * `forwardToWhatsApp`: write the chunk stored under `n` and delete it, when
     * both the chunk and a connection exist; otherwise do nothing.
     */
    method ForwardToWhatsApp(n: uint16) returns (written: Option<seq<byte>>)
      requires Valid()
      modifies this`outBuffer
      ensures Valid()
      ensures written.Some? <==> n in old(outBuffer) && hasConn
      ensures written.Some? ==> written.value == old(outBuffer)[n] && outBuffer == old(outBuffer) - {n}
      ensures written.None? ==> outBuffer == old(outBuffer)
    {
      written := None;
      if n in outBuffer && hasConn {
        written := Some(outBuffer[n]);
        outBuffer := outBuffer - {n};
      }
    }

    /** `readFromWhatsApp`: append every read to `inBuffer`, in order, until a read fails. */
    method ReadFromWhatsApp(results: seq<ReadResult>) returns (count: nat)
      modifies this`inBuffer
      ensures count <= |results| && (count < |results| ==> results[count].ReadError?)
      ensures inBuffer == old(inBuffer) + Delivered(results)
    {
      count := 0;
      while count < |results| && results[count].Chunk?
        invariant count <= |results|
        invariant old(inBuffer) + Delivered(results) == inBuffer + Delivered(results[count..])
      {
        assert results[count..][1..] == results[count + 1..];
        inBuffer := inBuffer + results[count].data;
        count := count + 1;
      }
    }
  }

  /** `Server`: the sessions by id. */
  class Server {
    var sessions: map<string, Session>
    const zone: string

    /** Every session is filed under its own id and keeps the session invariant. */
    ghost predicate Valid()
      reads this, sessions.Values
    {
      forall id :: id in sessions ==> sessions[id].id == id && sessions[id].Valid()
    }

    /** `NewServer` */
    constructor (zone: string)
      ensures this.zone == zone && sessions == map[] && Valid()
    {
      this.zone := zone;
      sessions := map[];
    }

    /**
     * `getSession`. An existing session
     * is returned as it is. Otherwise the WhatsApp dial decides: on success a
     * new session is registered, on failure a fresh session with empty maps is
     * returned and not registered.
     */
    method GetSession(sessionID: string, dialOk: bool) returns (sess: Session)
      requires Valid()
      modifies this`sessions
      ensures Valid() && sess.Valid() && sess.id == sessionID
      ensures sessionID in old(sessions) ==> sess == old(sessions)[sessionID] && sessions == old(sessions)
      ensures sessionID !in old(sessions) ==> fresh(sess) && sess.hasConn == dialOk && sess.State() == EmptySession
      ensures sessionID !in old(sessions) ==> sessions == if dialOk then old(sessions)[sessionID := sess] else old(sessions)
    {
      if sessionID in sessions {
        sess := sessions[sessionID];
      } else if !dialOk {
        sess := new Session(sessionID, false);
      } else {
        sess := new Session(sessionID, true);
        sessions := sessions[sessionID := sess];
      }
    }

    /** `sess.Exchange` on a session that is registered under its id or not registered at all. */
    method ExchangeIn(sess: Session, n: uint16, dataLabel: string) returns (stored: bool, payload: seq<byte>)
      requires Valid() && sess.Valid()
      requires sess.id in sessions ==> sessions[sess.id] == sess
      modifies sess`inBuffer, sess`outBuffer, sess`seqSeen
      ensures Valid()
      ensures forall other :: other in sessions && other != sess.id ==> unchanged(sessions[other])
      ensures stored <==> dataLabel != "" && DecodeLabelToDataUpper(dataLabel).Ok? && !Seen(old(sess.State()), n)
      ensures (payload, sess.inBuffer) == Drain(old(sess.inBuffer))
      ensures sess.State() == Absorb(old(sess.State()), n, dataLabel).(inBuffer := sess.inBuffer)
    {
      stored, payload := sess.Exchange(n, dataLabel);
      forall other | other in sessions && other != sess.id
        ensures unchanged(sessions[other])
      {
        assert sessions[other].id == other;
      }
    }

    /**
     * The part of `handleDNS` after the filters, for an admitted query `q`
     * with fields `f` and sequence number `n`: look the session up (or dial a
     * new one), store a new chunk, and answer with the next downstream bytes.
     */
    method Serve(q: Question, f: QueryFields, n: uint16, dialOk: bool) returns (answer: seq<AAAARecord>, spawned: Option<uint16>)
      requires Valid()
      modifies this`sessions, sessions.Values
      ensures Valid()
      ensures f.sessionID in old(sessions) ==> sessions == old(sessions)
      ensures f.sessionID !in old(sessions) ==> sessions.Keys == old(sessions).Keys + (if dialOk then {f.sessionID} else {})
      ensures forall other :: other in old(sessions) && other != f.sessionID ==>
        sessions[other] == old(sessions)[other] && unchanged(sessions[other])
      ensures spawned.Some? <==> (f.dataLabel != "" && DecodeLabelToDataUpper(f.dataLabel).Ok?
        && (f.sessionID in old(sessions) ==> !Seen(old(sessions[f.sessionID].State()), n)))
      ensures spawned.Some? ==> spawned.value == n
      ensures var before := if f.sessionID in old(sessions) then old(sessions[f.sessionID].State()) else EmptySession;
        var (payload, rest) := Drain(before.inBuffer);
        answer == (if payload == [] then [] else [AAAARecord(q.name, 0, PackDataToIPv6Truncating(payload))])
        && (f.sessionID in sessions ==> sessions[f.sessionID].State() == Absorb(before, n, f.dataLabel).(inBuffer := rest))
    {
      spawned := None;
      ghost var before := if f.sessionID in sessions then sessions[f.sessionID].State() else EmptySession;
      var sess := GetSession(f.sessionID, dialOk);
      assert sess.State() == before;
      assert f.sessionID !in old(sessions) ==> sessions.Keys == old(sessions).Keys + (if dialOk then {f.sessionID} else {});
      var stored, payload := ExchangeIn(sess, n, f.dataLabel);
      assert (payload, sess.inBuffer) == Drain(before.inBuffer);
      if stored {
        spawned := Some(n);
      }
      answer := [];
      if |payload| > 0 {
        var ip := PackDataToIPv6Truncating(payload);
        answer := answer + [AAAARecord(q.name, 0, ip)];
      }
    }

    /**
     * `handleDNS`. A query that is not admitted is dropped with no reply and no
     * effect. Otherwise the reply echoes the question and carries what `Serve`
     * answers; `spawned` is the sequence number a `forwardToWhatsApp`
     * goroutine is started for.
     */
    method HandleDNS(r: Msg, dialOk: bool) returns (reply: Option<Reply>, spawned: Option<uint16>)
      requires Valid()
      modifies this`sessions, sessions.Values
      ensures Valid()
      ensures reply.Some? <==> Admit(r, zone).Some?
      ensures reply.None? ==> sessions == old(sessions) && spawned.None? && unchanged(old(sessions).Values)
      ensures reply.Some? ==> reply.value.question == [r.question[0]]
      ensures reply.Some? ==>
        var (f, n) := Admit(r, zone).value;
        (f.sessionID in old(sessions) ==> sessions == old(sessions))
        && (f.sessionID !in old(sessions) ==> sessions.Keys == old(sessions).Keys + (if dialOk then {f.sessionID} else {}))
        && (spawned.Some? <==>
              (f.dataLabel != "" && DecodeLabelToDataUpper(f.dataLabel).Ok?
               && (f.sessionID in old(sessions) ==> !Seen(old(sessions[f.sessionID].State()), n))))
        && (spawned.Some? ==> spawned.value == n)
      ensures reply.Some? ==> forall other :: other in old(sessions) && other != Admit(r, zone).value.0.sessionID ==>
        sessions[other] == old(sessions)[other] && unchanged(sessions[other])
      ensures reply.Some? ==>
        var (f, n) := Admit(r, zone).value;
        var before := if f.sessionID in old(sessions) then old(sessions[f.sessionID].State()) else EmptySession;
        var (payload, rest) := Drain(before.inBuffer);
        reply.value.answer == (if payload == [] then [] else [AAAARecord(r.question[0].name, 0, PackDataToIPv6Truncating(payload))])
        && (f.sessionID in sessions ==> sessions[f.sessionID].State() == Absorb(before, n, f.dataLabel).(inBuffer := rest))
    {
      spawned := None;
      reply := None;
      if |r.question| == 0 {
        return;
      }
      var q := r.question[0];
      if q.qtype != TypeAAAA || !Text.HasSuffix(q.name, zone) {
        return;
      }
      var fields := ParseQueryName(q.name);
      if fields.Err? {
        return;
      }
      var seqBytes := Hex.DecodePrefix(fields.value.seqText);
      if |seqBytes| != 2 {
        return;
      }
      var seqNum := BigEndian16(seqBytes[0], seqBytes[1]);
      assert Admit(r, zone) == Some((fields.value, seqNum));
      var answer;
      answer, spawned := Serve(q, fields.value, seqNum, dialOk);
      // `resp.SetReply(r)` copies only the first question.
      reply := Some(Reply([q], answer));
    }
  }
}
