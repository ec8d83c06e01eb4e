/**
 * internal/client.go: the tunnel client. A local proxy accepts SOCKS5 or
 * transparent connections, cuts the upstream bytes into chunks carried in AAAA
 * query names, and polls for downstream bytes packed into AAAA answers.
 */
module AuraClient {
  import opened Wrappers
  import Text
  import Hex
  import DnsUtil

  const DefaultSocks5Port: int := 1080
  /** Upstream bytes travel in chunks of at most this many bytes. */
  const MaxChunkSize: nat := 30
  /** The DNS label length cap (RFC 1035, section 2.3.4). */
  const MaxDataLabelLen: nat := 63
  /** The resolver used when none is configured or `/etc/resolv.conf` cannot be read. */
  const FallbackDNSServer: string := "8.8.8.8:53"

  // ---------------------------------------------------------------------------
  // Pure helpers

  /**
   * `randomHex(n)`: `n / 2` random bytes in lower-case hex. The random bytes
   * are the parameter `rnd`.
   */
  function RandomHex(n: nat, rnd: seq<byte>): (s: string)
    requires |rnd| == n / 2
    ensures |s| == n / 2 * 2
    ensures forall i :: 0 <= i < |s| ==> Hex.IsLowerDigit(s[i])
    ensures Hex.DecodePrefix(s) == rnd
  {
    Hex.DecodeEncode(rnd);
    Hex.Encode(rnd)
  }

  /** A hex string is free of the two separators of a query name. */
  lemma HexHasNoSeparators(s: string)
    requires forall i :: 0 <= i < |s| ==> Hex.IsLowerDigit(s[i])
    ensures '-' !in s && '.' !in s
  {
    forall i | 0 <= i < |s| ensures s[i] != '-' && s[i] != '.' {
      assert Hex.IsLowerDigit(s[i]);
    }
  }

  /**
   * `getEffectiveDNSServer`, with the resolvers of `/etc/resolv.conf` as the
   * parameter `resolvers` (`None` when the file cannot be read). It never fails.
   */
  function EffectiveDNSServer(dnsServer: string, resolvers: Option<seq<string>>): (server: string)
    ensures dnsServer != "" ==> server == dnsServer
    ensures dnsServer == "" ==> ':' in server
    ensures dnsServer == "" && resolvers.Some? && |resolvers.value| > 0 ==>
      Text.HasPrefix(server, resolvers.value[0]) && (':' in resolvers.value[0] ==> server == resolvers.value[0])
    ensures dnsServer == "" && resolvers.Some? && |resolvers.value| > 0 && ':' !in resolvers.value[0] ==>
      server == resolvers.value[0] + ":53"
    ensures dnsServer == "" && (resolvers.None? || resolvers.value == []) ==> server == FallbackDNSServer
  {
    if dnsServer != "" then dnsServer
    else if resolvers.None? || resolvers.value == [] then
      assert FallbackDNSServer[7] == ':';
      FallbackDNSServer
    else
      var first := resolvers.value[0];
      if ':' in first then first
      else
        assert (first + ":53")[|first|] == ':';
        first + ":53"
  }

  /**
   * The upstream query name of `sendDNSPacket`:
   * `nonce-%04x(seq)-session.label.domain`.
   */
  function UpstreamQueryName(nonce: string, seqNum: uint16, sessionID: string, data: seq<byte>, domain: string): string
  {
    nonce + "-" + Hex.Format04x(seqNum) + "-" + sessionID + "." + DnsUtil.EncodeDataToLabel(data) + "." + domain
  }

  /** The poll query name of `pollDNS`: sequence field `ffff` and no data label. */
  function PollQueryName(nonce: string, sessionID: string, domain: string): string
  {
    nonce + "-ffff-" + sessionID + "." + domain
  }

  /** `flushTLSRecord`'s cut: consecutive slices of `MaxChunkSize` bytes, the last possibly shorter. */
  function Chunks(record: seq<byte>): seq<seq<byte>>
    decreases |record|
  {
    if record == [] then []
    else if |record| <= MaxChunkSize then [record]
    else [record[..MaxChunkSize]] + Chunks(record[MaxChunkSize..])
  }

  /** The chunks concatenate back to the record. */
  lemma {:induction false} ChunksFlatten(record: seq<byte>)
    decreases |record|
    ensures Flatten(Chunks(record)) == record
  {
    if |record| > MaxChunkSize {
      var rest := record[MaxChunkSize..];
      var cs := Chunks(record);
      ChunksFlatten(rest);
      assert cs[0] == record[..MaxChunkSize] && cs[1..] == Chunks(rest);
      assert record == record[..MaxChunkSize] + rest;
    } else if record != [] {
      assert Chunks(record)[1..] == [];
    }
  }

  /** There are `ceil(|record| / 30)` chunks. */
  lemma {:induction false} ChunksCount(record: seq<byte>)
    decreases |record|
    ensures |Chunks(record)| == (|record| + MaxChunkSize - 1) / MaxChunkSize
  {
    if |record| > MaxChunkSize {
      ChunksCount(record[MaxChunkSize..]);
    }
  }

  /** No chunk is empty, none is longer than 30 bytes, and all but the last hold exactly 30. */
  lemma {:induction false} ChunksSizes(record: seq<byte>)
    decreases |record|
    ensures forall i :: 0 <= i < |Chunks(record)| ==> 0 < |Chunks(record)[i]| <= MaxChunkSize
    ensures forall i :: 0 <= i < |Chunks(record)| - 1 ==> |Chunks(record)[i]| == MaxChunkSize
  {
    if |record| > MaxChunkSize {
      var rest := record[MaxChunkSize..];
      var cs := Chunks(record);
      ChunksSizes(rest);
      assert cs == [record[..MaxChunkSize]] + Chunks(rest);
      forall i | 1 <= i < |cs|
        ensures cs[i] == Chunks(rest)[i - 1]
      {
      }
    }
  }

  /** One step of the `offset` loop: the next chunk is the slice up to `end`. */
  lemma ChunksStep(record: seq<byte>, offset: nat, end: nat)
    requires offset < |record|
    requires end == if offset + MaxChunkSize > |record| then |record| else offset + MaxChunkSize
    ensures Chunks(record[offset..]) == [record[offset..end]] + Chunks(record[end..])
  {
    var rest := record[offset..];
    if |rest| <= MaxChunkSize {
      assert rest == record[offset..end];
      assert record[end..] == [];
    } else {
      assert rest[..MaxChunkSize] == record[offset..end];
      assert rest[MaxChunkSize..] == record[end..];
    }
  }

  /** The chunks already sent, followed by the chunks of what is left from `offset`, are the record's chunks. */
  ghost predicate SentUpTo(record: seq<byte>, offset: nat, sent: seq<seq<byte>>)
  {
    offset <= |record| && sent + Chunks(record[offset..]) == Chunks(record)
  }

  /** The bookkeeping of one `offset` step: the chunk sent is the next one of the record. */
  lemma FlushStep(record: seq<byte>, offset: nat, end: nat, sent: seq<seq<byte>>)
    requires offset < |record|
    requires end == if offset + MaxChunkSize > |record| then |record| else offset + MaxChunkSize
    requires SentUpTo(record, offset, sent)
    ensures SentUpTo(record, end, sent + [record[offset..end]])
    ensures |sent| < |Chunks(record)|
  {
    ChunksStep(record, offset, end);
    assert sent + Chunks(record[offset..]) == (sent + [record[offset..end]]) + Chunks(record[end..]);
  }

  /** Once the offset reaches the end, every chunk has been sent. */
  lemma FlushDone(record: seq<byte>, sent: seq<seq<byte>>)
    requires SentUpTo(record, |record|, sent)
    ensures sent == Chunks(record)
  {
    assert record[|record|..] == [];
  }

  // ---------------------------------------------------------------------------
  // The client and its sequence counter

  /** `AuraClient`: the configuration and the upstream sequence counter `Seq`. */
  class Client {
    const dnsServer: string
    const domain: string
    const socks5Port: int
    const sessionID: string
    /** `Seq`: the next upstream sequence number. */
    var seqCounter: uint16

    /**
     * `NewAuraClient`: port 0 means the default 1080, and the session id is
     * `randomHex(4)` of the two random bytes `rnd`.
     */
    constructor (dnsServer: string, domain: string, port: int, rnd: seq<byte>)
      requires |rnd| == 2
      ensures this.dnsServer == dnsServer && this.domain == domain
      ensures socks5Port == if port == 0 then DefaultSocks5Port else port
      ensures sessionID == RandomHex(4, rnd) && |sessionID| == 4
      ensures seqCounter == 0
    {
      this.dnsServer := dnsServer;
      this.domain := domain;
      socks5Port := if port == 0 then DefaultSocks5Port else port;
      sessionID := RandomHex(4, rnd);
      seqCounter := 0;
    }

    /**
     * `sendDNSPacket` (and `sendDNSPacketFast`, which differs only in sending
     * from a goroutine): take the current sequence number, advance the 16-bit
     * counter with wrap-around, and name the query. The nonce is `randomHex(4)`
     * drawn by the caller; the query itself is not sent in this model.
     */
    method SendDNSPacket(data: seq<byte>, nonce: string) returns (qname: string)
      modifies this`seqCounter
      ensures qname == UpstreamQueryName(nonce, old(seqCounter), sessionID, data, domain)
      ensures seqCounter == (old(seqCounter) + 1) % 0x1_0000
    {
      var seqNum := seqCounter;
      seqCounter := (seqCounter + 1) % 0x1_0000;
      var dataLabel := DnsUtil.EncodeDataToLabel(data);
      qname := nonce + "-" + Hex.Format04x(seqNum) + "-" + sessionID + "." + dataLabel + "." + domain;
    }

    /**
     * `flushTLSRecord`: one upstream query per chunk, in order, with
     * consecutive sequence numbers. `nonces[i]` is the nonce of the i-th query.
     */
    method FlushTLSRecord(record: seq<byte>, nonces: seq<string>) returns (qnames: seq<string>)
      requires |nonces| >= |Chunks(record)|
      modifies this`seqCounter
      ensures |qnames| == |Chunks(record)|
      ensures seqCounter == SeqAfter(old(seqCounter), |qnames|)
      ensures forall i :: 0 <= i < |qnames| ==>
        qnames[i] == UpstreamQueryName(nonces[i], SeqAfter(old(seqCounter), i), sessionID, Chunks(record)[i], domain)
    {
      qnames := [];
      ghost var start := seqCounter;
      ghost var sent: seq<seq<byte>> := [];
      var offset := 0;
      while offset < |record|
        invariant offset <= |record|
        invariant Flushing(record, offset, nonces, start, sent, qnames)
        decreases |record| - offset
      {
        offset, qnames, sent := SendChunkAt(record, offset, nonces, qnames, start, sent);
      }
      FlushDone(record, sent);
    }

    /**
     * The state of `flushTLSRecord`'s loop at `offset`: `sent` are the chunks
     * before it, `qnames` their names in order, and the counter has advanced
     * once per chunk from `start`.
     */
    ghost predicate Flushing(record: seq<byte>, offset: nat, nonces: seq<string>, start: uint16, sent: seq<seq<byte>>, qnames: seq<string>)
      reads this
    {
      FlushState(record, offset, nonces, start, sent, qnames, seqCounter, sessionID, domain)
    }

    /** One turn of `flushTLSRecord`'s loop: send the chunk at `offset` and move past it. */
    method SendChunkAt(record: seq<byte>, offset: nat, nonces: seq<string>, qnames: seq<string>, ghost start: uint16, ghost sent: seq<seq<byte>>)
      returns (end: nat, qnames': seq<string>, ghost sent': seq<seq<byte>>)
      requires offset < |record|
      requires Flushing(record, offset, nonces, start, sent, qnames)
      modifies this`seqCounter
      ensures offset < end <= |record|
      ensures Flushing(record, end, nonces, start, sent', qnames')
    {
      end := offset + MaxChunkSize;
      if end > |record| {
        end := |record|;
      }
      var chunk := record[offset..end];
      ghost var counter := seqCounter;
      var qname := SendDNSPacket(chunk, nonces[|qnames|]);
      FlushAdvance(record, offset, end, nonces, start, sent, qnames, counter, sessionID, domain, qname);
      qnames' := qnames + [qname];
      sent' := sent + [chunk];
    }

    /**
     * `pollDNS`: ask for `nonce-ffff-session.domain` and return the 16-byte
     * addresses of the AAAA answers, concatenated in answer order. `response`
     * is the exchange's outcome: `None` for a query error or no reply.
     */
    method PollDNS(nonce: string, response: Option<seq<ResourceRecord>>) returns (qname: string, out: seq<byte>)
      ensures qname == PollQueryName(nonce, sessionID, domain)
      ensures out == if response.None? then [] else AAAAPayload(response.value)
    {
      qname := nonce + "-ffff-" + sessionID + "." + domain;
      out := [];
      if response.Some? {
        out := ExtractAAAA(response.value);
      }
    }
  }

  /** `Client.Flushing` with the counter, session id and domain written out. */
  ghost predicate FlushState(record: seq<byte>, offset: nat, nonces: seq<string>, start: uint16, sent: seq<seq<byte>>,
                             qnames: seq<string>, counter: int, sessionID: string, domain: string)
  {
    SentUpTo(record, offset, sent) && |Chunks(record)| <= |nonces|
    && counter == SeqAfter(start, |sent|)
    && NamedInOrder(qnames, nonces, start, sessionID, sent, domain)
  }

  /** Sending the chunk at `offset` as `qname`, with the counter then at `counter`, moves the loop state past it. */
  lemma FlushAdvance(record: seq<byte>, offset: nat, end: nat, nonces: seq<string>, start: uint16, sent: seq<seq<byte>>,
                     qnames: seq<string>, counter: int, sessionID: string, domain: string, qname: string)
    requires offset < |record|
    requires end == if offset + MaxChunkSize > |record| then |record| else offset + MaxChunkSize
    requires FlushState(record, offset, nonces, start, sent, qnames, counter, sessionID, domain)
    requires qname == UpstreamQueryName(nonces[|qnames|], counter, sessionID, record[offset..end], domain)
    ensures FlushState(record, end, nonces, start, sent + [record[offset..end]], qnames + [qname],
                       (counter + 1) % 0x1_0000, sessionID, domain)
  {
    FlushStep(record, offset, end, sent);
    WrapStep(start, |sent|, counter);
    NamedInOrderSnoc(qnames, nonces, start, sessionID, sent, domain, record[offset..end], qname);
  }

  /** `qnames[i]` is the name of chunk `i`, sent with `nonces[i]` and sequence number `start + i` modulo 2^16. */
  ghost predicate NamedInOrder(qnames: seq<string>, nonces: seq<string>, start: uint16, sessionID: string, chunks: seq<seq<byte>>, domain: string)
  {
    |qnames| == |chunks| <= |nonces|
    && forall i :: 0 <= i < |qnames| ==>
      qnames[i] == UpstreamQueryName(nonces[i], SeqAfter(start, i), sessionID, chunks[i], domain)
  }

  /** Naming one more chunk with the next nonce and sequence number keeps the names in order. */
  lemma NamedInOrderSnoc(qnames: seq<string>, nonces: seq<string>, start: uint16, sessionID: string, chunks: seq<seq<byte>>, domain: string,
                         chunk: seq<byte>, qname: string)
    requires NamedInOrder(qnames, nonces, start, sessionID, chunks, domain) && |chunks| < |nonces|
    requires qname == UpstreamQueryName(nonces[|chunks|], SeqAfter(start, |chunks|), sessionID, chunk, domain)
    ensures NamedInOrder(qnames + [qname], nonces, start, sessionID, chunks + [chunk], domain)
  {
  }

  /** A sequence number `n` advanced `i` then one more time wraps like `n + i + 1`. */
  lemma WrapStep(n: uint16, i: nat, c: int)
    requires c == SeqAfter(n, i)
    ensures (c + 1) % 0x1_0000 == SeqAfter(n, i + 1)
  {
  }

  /** The 16-bit sequence number `i` sends after `n`. */
  function SeqAfter(n: uint16, i: nat): uint16
  {
    (n + i) % 0x1_0000
  }

  // ---------------------------------------------------------------------------
  // Poll answers

  /** An answer record of the poll reply: an AAAA address or any other type. */
  datatype ResourceRecord = AAAA(addr: seq<byte>) | OtherRecord

  /** The addresses of the AAAA answers, concatenated in order. */
  function AAAAPayload(answers: seq<ResourceRecord>): seq<byte>
  {
    if answers == [] then []
    else (if answers[0].AAAA? then answers[0].addr else []) + AAAAPayload(answers[1..])
  }

  /** The number of AAAA answers. */
  function AAAACount(answers: seq<ResourceRecord>): nat
  {
    if answers == [] then 0 else (if answers[0].AAAA? then 1 else 0) + AAAACount(answers[1..])
  }

  /** With 16-byte addresses the payload is 16 bytes per AAAA answer. */
  lemma {:induction false} AAAAPayloadLength(answers: seq<ResourceRecord>)
    requires forall i :: 0 <= i < |answers| && answers[i].AAAA? ==> |answers[i].addr| == 16
    ensures |AAAAPayload(answers)| == 16 * AAAACount(answers)
  {
    if answers != [] {
      assert forall i :: 0 <= i < |answers| - 1 && answers[1..][i].AAAA? ==> |answers[1..][i].addr| == 16 by {
        forall i | 0 <= i < |answers| - 1 && answers[1..][i].AAAA? ensures |answers[1..][i].addr| == 16 {
          assert answers[1..][i] == answers[i + 1];
        }
      }
      AAAAPayloadLength(answers[1..]);
    }
  }

  /** Appending an answer appends its address, if it is an AAAA record. */
  lemma {:induction false} AAAAPayloadSnoc(answers: seq<ResourceRecord>, r: ResourceRecord)
    ensures AAAAPayload(answers + [r]) == AAAAPayload(answers) + (if r.AAAA? then r.addr else [])
  {
    if answers == [] {
      assert answers + [r] == [r];
      assert [r][1..] == [];
    } else {
      assert (answers + [r])[1..] == answers[1..] + [r];
      AAAAPayloadSnoc(answers[1..], r);
    }
  }

  /** The extraction loop of `pollDNS`: append each AAAA address, skip other records. */
  method ExtractAAAA(answers: seq<ResourceRecord>) returns (out: seq<byte>)
    ensures out == AAAAPayload(answers)
  {
    out := [];
    var i := 0;
    while i < |answers|
      invariant 0 <= i <= |answers|
      invariant out == AAAAPayload(answers[..i])
    {
      AAAAPayloadSnoc(answers[..i], answers[i]);
      assert answers[..i + 1] == answers[..i] + [answers[i]];
      if answers[i].AAAA? {
        out := out + answers[i].addr;
      }
      i := i + 1;
    }
    assert answers[..i] == answers;
  }

  // ---------------------------------------------------------------------------
  // The accepted connection: SOCKS5 handshake and TLS record buffering

  /** `bufferedConn`: the connection's unread bytes and the fast-path TLS record. */
  class BufferedConn {
    /** What the `bufio.Reader` has yet to hand out; the peer sends nothing more. */
    var unread: seq<byte>
    var tlsFastPath: bool
    var firstTLSRecord: seq<byte>
    var tlsRecordSent: bool

    constructor (incoming: seq<byte>)
      ensures unread == incoming && !tlsFastPath && firstTLSRecord == [] && !tlsRecordSent
    {
      unread := incoming;
      tlsFastPath := false;
      firstTLSRecord := [];
      tlsRecordSent := false;
    }

    /** `io.ReadFull`: exactly `n` bytes, or a failure after consuming all that was left. */
    method ReadFull(n: nat) returns (ok: bool, data: seq<byte>)
      modifies this`unread
      ensures ok <==> n <= |old(unread)|
      ensures ok ==> data == old(unread)[..n] && unread == old(unread)[n..]
      ensures !ok ==> unread == []
    {
      if n <= |unread| {
        data := unread[..n];
        unread := unread[n..];
        ok := true;
      } else {
        data := unread;
        unread := [];
        ok := false;
      }
    }

    /**
     * `bufferTLSRecord`: read the 5-byte record header, then as many bytes as
     * its big-endian length field (bytes 3 and 4) says, and keep the whole
     * record for the fast path.
     */
    method BufferTLSRecord() returns (ok: bool)
      modifies this
      ensures ok <==> SplitTLSRecord(old(unread)).Some?
      ensures ok ==> (firstTLSRecord, unread) == SplitTLSRecord(old(unread)).value && tlsFastPath && !tlsRecordSent
      ensures !ok ==> (unread == [] && tlsFastPath == old(tlsFastPath)
        && firstTLSRecord == old(firstTLSRecord) && tlsRecordSent == old(tlsRecordSent))
    {
      ghost var input := unread;
      var got, header := ReadFull(5);
      if !got {
        return false;
      }
      var length := BigEndian16(header[3], header[4]);
      var record := header;
      if length > 0 {
        var body;
        got, body := ReadFull(length);
        if !got {
          return false;
        }
        record := record + body;
        assert record == input[..5 + length];
      }
      firstTLSRecord := record;
      tlsFastPath := true;
      tlsRecordSent := false;
      ok := true;
    }

    /**
     * The first step of `tcpToDNS`: a buffered TLS record that has not been
     * sent is flushed through `client` and then dropped, so it goes out at
     * most once.
     */
    method FlushPendingTLSRecord(client: Client, nonces: seq<string>) returns (qnames: seq<string>)
      requires |nonces| >= |Chunks(firstTLSRecord)|
      modifies this`firstTLSRecord, this`tlsRecordSent, client`seqCounter
      ensures var pending := old(tlsFastPath && !tlsRecordSent && |firstTLSRecord| > 0);
        (pending ==> tlsRecordSent && firstTLSRecord == [] && |qnames| == |Chunks(old(firstTLSRecord))|)
        && (!pending ==> qnames == [] && firstTLSRecord == old(firstTLSRecord) && tlsRecordSent == old(tlsRecordSent)
                         && client.seqCounter == old(client.seqCounter))
      ensures old(tlsFastPath && !tlsRecordSent && |firstTLSRecord| > 0) ==>
        client.seqCounter == SeqAfter(old(client.seqCounter), |qnames|)
        && forall i :: 0 <= i < |qnames| ==>
             qnames[i] == UpstreamQueryName(nonces[i], SeqAfter(old(client.seqCounter), i), client.sessionID,
                                            Chunks(old(firstTLSRecord))[i], client.domain)
      ensures !(tlsFastPath && !tlsRecordSent && |firstTLSRecord| > 0)
    {
      qnames := [];
      if tlsFastPath && !tlsRecordSent && |firstTLSRecord| > 0 {
        qnames := client.FlushTLSRecord(firstTLSRecord, nonces);
        tlsRecordSent := true;
        firstTLSRecord := [];
      }
    }
  }

  /**
   * The TLS record (RFC 8446, section 5.1) at the front of `input`: a 5-byte
   * header whose last two bytes give the length of the fragment that follows.
   */
  function SplitTLSRecord(input: seq<byte>): (r: Option<(seq<byte>, seq<byte>)>)
    ensures r.Some? <==> |input| >= 5 && |input| >= 5 + 256 * (input[3] as int) + input[4] as int
    ensures r.Some? ==> (r.value.0 + r.value.1 == input
      && |r.value.0| >= 5 && |r.value.0| == 5 + 256 * (r.value.0[3] as int) + r.value.0[4] as int)
  {
    if |input| < 5 then None
    else
      var length := 256 * (input[3] as int) + input[4] as int;
      if |input| < 5 + length then None
      else Some((input[..5 + length], input[5 + length..]))
  }

  /** The TLS content type of a handshake record (RFC 8446, section 5.1). */
  const TLSHandshake: byte := 0x16
  /** The SOCKS version byte (RFC 1928, section 3). */
  const Socks5Version: byte := 0x05
  /** The method-selection reply: version 5, no authentication required. */
  const Socks5NoAuth: seq<byte> := [0x05, 0x00]
  /** The CONNECT reply: succeeded, bound address 0.0.0.0:0. */
  const Socks5Success: seq<byte> := [0x05, 0x00, 0x00, 0x01, 0, 0, 0, 0, 0, 0]

  /** The length of a method-selection message (RFC 1928, section 3): VER, NMETHODS and the methods. */
  function GreetingLength(input: seq<byte>): (n: Option<nat>)
    ensures n.Some? ==> 2 <= n.value <= |input|
    ensures |input| >= 257 ==> n.Some?
  {
    if |input| < 2 || |input| < 2 + input[1] as int then None else Some(2 + input[1] as int)
  }

  /**
   * The length of a request (RFC 1928, section 4) as the client reads it:
   * the 4-byte head must carry CMD = CONNECT; an IPv4 address and port add
   * 6 bytes, a domain name adds its length byte, the name and the port, and
   * any other address type adds nothing.
   */
  function RequestLength(req: seq<byte>): (n: Option<nat>)
    ensures n.Some? ==> 4 <= n.value <= |req| && n.value <= 262 && req[1] == 0x01
  {
    if |req| < 4 || req[1] != 0x01 then None
    else if req[3] == 0x01 then (if |req| < 10 then None else Some(10))
    else if req[3] == 0x03 then (if |req| < 5 || |req| < 7 + req[4] as int then None else Some(7 + req[4] as int))
    else Some(4)
  }

  /** What `handleSocks5Conn` goes on to do with the connection. */
  datatype Dispatch = Closed | TransparentTunnel | Socks5Tunnel

  /** The greeting step of `handleSocks5Conn`: VER and NMETHODS, then the methods. */
  method ReadGreeting(bc: BufferedConn) returns (ok: bool)
    modifies bc`unread
    ensures ok <==> GreetingLength(old(bc.unread)).Some?
    ensures ok ==> bc.unread == old(bc.unread)[GreetingLength(old(bc.unread)).value..]
    ensures !ok ==> bc.unread == []
  {
    ghost var input := bc.unread;
    var got, buf := bc.ReadFull(2);
    if !got {
      return false;
    }
    var nMethods := buf[1];
    got, buf := bc.ReadFull(nMethods);
    ok := got;
    if ok {
      assert input[2..][nMethods..] == input[2 + nMethods..];
    }
  }

  /** The request step of `handleSocks5Conn`: the 4-byte head, then the destination it describes. */
  method ReadRequest(bc: BufferedConn) returns (ok: bool)
    modifies bc`unread
    ensures ok <==> RequestLength(old(bc.unread)).Some?
    ensures ok ==> bc.unread == old(bc.unread)[RequestLength(old(bc.unread)).value..]
    ensures !ok && |old(bc.unread)| >= 4 && old(bc.unread)[1] != 0x01 ==> bc.unread == old(bc.unread)[4..]
    ensures !ok && !(|old(bc.unread)| >= 4 && old(bc.unread)[1] != 0x01) ==> bc.unread == []
  {
    ghost var input := bc.unread;
    var got, buf := bc.ReadFull(4);
    if !got || buf[1] != 0x01 {
      return false;
    }
    if buf[3] == 0x01 {
      got, buf := bc.ReadFull(4 + 2);
      if !got {
        return false;
      }
      assert input[4..][6..] == input[10..];
    } else if buf[3] == 0x03 {
      got, buf := bc.ReadFull(1);
      if !got {
        return false;
      }
      var dlen := buf[0];
      got, buf := bc.ReadFull(dlen as int + 2);
      if !got {
        return false;
      }
      assert input[5..][dlen as int + 2..] == input[7 + dlen as int..];
    }
    ok := true;
  }

  /**
   * `handleSocks5Conn` up to the tunnel: peek at the first byte; anything but
   * 0x05 goes straight to the transparent tunnel, after buffering a TLS record
   * when the byte is 0x16; 0x05 runs the SOCKS5 handshake, answering `05 00`
   * to the greeting and the success reply to a CONNECT request. `written` is
   * what goes back to the peer.
   */
  method HandleSocks5Conn(bc: BufferedConn) returns (outcome: Dispatch, written: seq<byte>)
    modifies bc
    ensures old(bc.unread) == [] ==> outcome == Closed && written == []
    ensures old(bc.unread) != [] && old(bc.unread)[0] != Socks5Version ==>
      written == [] && outcome != Socks5Tunnel
      && (old(bc.unread)[0] != TLSHandshake ==> (outcome == TransparentTunnel && bc.unread == old(bc.unread)
          && bc.tlsFastPath == old(bc.tlsFastPath) && bc.firstTLSRecord == old(bc.firstTLSRecord)))
      && (old(bc.unread)[0] == TLSHandshake ==>
          (outcome == TransparentTunnel <==> SplitTLSRecord(old(bc.unread)).Some?)
          && (outcome == TransparentTunnel ==>
                (bc.firstTLSRecord, bc.unread) == SplitTLSRecord(old(bc.unread)).value && bc.tlsFastPath && !bc.tlsRecordSent))
    ensures old(bc.unread) != [] && old(bc.unread)[0] == Socks5Version ==>
      var input := old(bc.unread);
      var g := GreetingLength(input);
      outcome != TransparentTunnel
      && (outcome == Socks5Tunnel <==> g.Some? && RequestLength(input[g.value..]).Some?)
      && written == (if g.None? then [] else Socks5NoAuth + (if outcome == Socks5Tunnel then Socks5Success else []))
      && (outcome == Socks5Tunnel ==> bc.unread == input[g.value..][RequestLength(input[g.value..]).value..])
  {
    written := [];
    if bc.unread == [] {
      return Closed, written;
    }
    var first := bc.unread[0];
    if first != Socks5Version {
      if first == TLSHandshake {
        var buffered := bc.BufferTLSRecord();
        if !buffered {
          return Closed, written;
        }
      }
      return TransparentTunnel, written;
    }

    var ok := ReadGreeting(bc);
    if !ok {
      return Closed, written;
    }
    written := written + Socks5NoAuth;
    ok := ReadRequest(bc);
    if !ok {
      return Closed, written;
    }
    written := written + Socks5Success;
    outcome := Socks5Tunnel;
  }

  /**
   * An IPv6 destination (ATYP 0x04) is not read: its 16 address bytes and 2
   * port bytes stay in the stream and reach the tunnel as payload.
   */
  lemma IPv6DestinationLeftUnread(req: seq<byte>)
    requires |req| >= 4 + 18 && req[1] == 0x01 && req[3] == 0x04
    ensures RequestLength(req) == Some(4)
  {
  }
}
