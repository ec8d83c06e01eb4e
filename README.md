# Aura DNS tunnel, modelled in Dafny

Aura carries a TCP stream inside DNS. A local SOCKS5 or transparent proxy
(the Go client) cuts the bytes it receives into chunks of 30 bytes. It sends
each chunk, Base32-encoded, as the data label of an AAAA query named
`nonce-seq-session.label.domain`. An authoritative DNS server (Go) for the
zone keeps one session per session id. It stores each chunk under its
sequence number, suppressing duplicates, and hands each stored chunk to its
own goroutine that writes it to WhatsApp as it arrives; nothing puts the
chunks back in sequence order. It answers
every query with up to 16 bytes of the downstream stream, packed into an IPv6
address. The client polls with the sequence field `ffff` and writes the
addresses it gets back to the local connection. On Android, two
`AuraVpnService` controllers (a Flutter one and a native one) and the Go
`mobile.go` entry points manage the start/stop lifecycle.

The model covers these parts:

- The wire codec. Files `wrappers.dfy`, `text.dfy`, `hex.dfy`, `base32.dfy`,
  `dnsutil.dfy` and `protocol.dfy` cover Base32 labels (RFC 4648 section 6,
  unpadded, lower-cased), the hex sequence field, IPv6 packing and the
  query-name layout.
- The server, in `server.dfy`. `ParseQueryName`, the upper-casing decoder and
  the truncating packer are functions. `handleDNS`, `getSession`,
  `forwardToWhatsApp` and `readFromWhatsApp` are methods of the classes
  `Session` and `Server`. These methods update the `seqSeen`/`outBuffer` maps,
  the `inBuffer` queue and the session table in place. Each one is proved
  against the value-level functions `Admit`, `Absorb` and `Drain`.
- The client, in `client.dfy`. This covers the `NewAuraClient` defaults, the
  DNS-server choice, the 16-bit `Seq` counter, and query naming. It also
  covers the `flushTLSRecord` loop, the TLS record buffering and its
  flush-once step, the SOCKS5 greeting and CONNECT request parser
  (RFC 1928 sections 3, 4 and 6), and AAAA extraction in `pollDNS`.
- The single-instance state of `mobile.go`, in `mobile.dfy`.
- The two `AuraVpnService` controllers, in `flutter_vpn.dfy` and
  `mobile_vpn.dfy`. What they share is in `vpn_platform.dfy`: the interface
  configuration, the DNS-host selection and the `forwardPackets` loop.
- Properties of both ends together, in `tunnel.dfy`. The server parses every
  upstream name back into the client's nonce, sequence number, session and
  data. A poll, however, is read as data: its name has no data label, so the
  server takes the zone's first label `aura` for one. That label decodes to
  two bytes, which are stored as upstream chunk `0xffff`. From then on, the
  client's real chunk numbered `0xffff` is suppressed as a duplicate.

Randomness is passed in as parameters: the nonce and session bytes, and
`/etc/resolv.conf`. So are the outcomes of the network and Android calls:
DNS answers, WhatsApp reads, whether a dial succeeds, `establish()`, and the
engine's error text.

Where the code and the usual reading of the protocol differ, the model
follows the code:

- The dnsutil decoder does no case folding. The lower-case label from
  `EncodeDataToLabel` is therefore rejected, except when the label holds no
  letter at all: `[0xFF]` encodes to `74`, which decodes.
- The server reads the sequence field with `hex.DecodeString` and ignores the
  error, keeping the bytes decoded before it. A field that starts with four
  hex digits is therefore accepted, unless the next two characters are hex
  digits too: `abcdz` reads as `0xabcd`, while `abcdef` (three bytes) is
  dropped.
- The unpadded Base32 decoder only fails on a character outside the
  alphabet. A last group of 1, 3 or 6 characters is accepted and adds no
  byte, as Go's decoder without padding does; bits left over after the last
  whole byte are ignored.

## Model

| member | source | states |
|---|---|---|
| Wrappers.BigEndian16 | internal/server.go:112 | the sequence number is the big-endian value of its two bytes: its high byte is the first, its low byte the second |
| Text.Split | internal/server.go:14 | `strings.Split` has one piece more than there are separators, no piece holds the separator, and joining the pieces restores the text |
| Text.ToLower | internal/dnsutil.go:14 | lower-casing keeps the length, leaves no upper-case letter, and changes nothing but letter case |
| Text.ToUpper | internal/server.go:36 | upper-casing keeps the length, leaves no lower-case letter, and changes nothing but letter case |
| Text.UpperOfLower | internal/server.go:36 | upper-casing ignores the case the text was in |
| Hex.Encode | internal/client.go:94-98 | `hex.EncodeToString` gives two lower-case hex digits per byte |
| Hex.DecodeEncode | internal/server.go:108 | `hex.DecodeString` reads back exactly the bytes that were encoded |
| Hex.Format04xIsBigEndianHex | internal/client.go:290 | the `%04x` field spells the two big-endian bytes of the counter in hex |
| Hex.DecodePrefix | internal/server.go:108 | `hex.DecodeString` with the error dropped keeps at most one byte per two characters; `Hex.DecodeEncode` and `AuraServer.SeqNumberIgnoresDecodeError` state what it keeps |
| Hex.Format04x | internal/client.go:290 | `%04x` gives exactly four lower-case hex digits; `Hex.Format04xIsBigEndianHex` gives their value |
| Base32.Encode | internal/dnsutil.go:10-14 | the unpadded encoding has `ceil(8n/5)` characters, all in the RFC 4648 alphabet |
| Base32.DecodedLength | internal/dnsutil.go:18-20 | `k` characters give at most `5k/8` bytes: exactly `5k/8` when the last group has 0, 2, 4, 5 or 7 characters, and only the whole groups' bytes otherwise |
| Base32.Decode | internal/dnsutil.go:18-20 | decoding fails if and only if a character (after removing line breaks) is outside the alphabet; a success yields `DecodedLength` bytes |
| Base32.PartialGroupDropped | internal/dnsutil.go:18-20 | a last group of 1, 3 or 6 characters is ignored: the text decodes as its whole groups alone |
| Base32.SixCharsDecodeToNothing | internal/dnsutil.go:18-20 | the six-letter label `TUNNEL` decodes, with no error, to no bytes |
| Base32.DecodeEncode | internal/dnsutil.go:10-20 | decoding inverts encoding for every byte string |
| Base32.LowerCaseRejected | internal/dnsutil.go:18-20 | any lower-case letter makes decoding fail |
| Base32.EncodeAllOnes | internal/dnsutil.go:14 | the byte `FF` encodes as `74`, a label with no letter |
| Base32.EncodeZero | internal/dnsutil.go:14 | the byte `00` encodes as `AA` |
| DnsUtil.EncodeDataToLabel | internal/dnsutil.go:13-15 | the label has `ceil(8n/5)` characters, no `=`, and only `a`-`z` and `2`-`7` |
| DnsUtil.ChunkLabelFits | internal/dnsutil.go:12-15 | a chunk of at most 30 bytes gives a label of at most 48 characters, under the 63 allowed |
| DnsUtil.DecodeLabelToData | internal/dnsutil.go:18-20 | a label that decodes holds no lower-case letter |
| DnsUtil.DecodeInvertsUpperCasedLabel | internal/dnsutil.go:13-20 | decoding the upper-cased label gives back the data |
| DnsUtil.DecodeOfLowerCaseLabel | internal/dnsutil.go:13-20 | the lower-case label decodes if and only if it holds no letter, and then to the data |
| DnsUtil.LowerCaseLabelExamples | internal/dnsutil.go:13-20 | `[0xFF]` survives the lower-case round trip; `[0]` (label `aa`) is rejected |
| DnsUtil.PackDataToIPv6 | internal/dnsutil.go:23-30 | more than 16 bytes is an error; otherwise the address is 16 bytes, the data followed by zeros |
| DnsUtil.UnpackIPv6ToData | internal/dnsutil.go:33-35 | a 16-byte address is returned unchanged |
| DnsUtil.UnpackPack | internal/dnsutil.go:23-35 | unpacking a packed address gives the data padded with zeros to 16 bytes |
| DnsUtil.PackForgetsLength | internal/dnsutil.go:27-29 | for all data, appending any number of zero bytes that keeps it within 16 packs to the same address, so the length is lost |
| Protocol.BuildQueryName | internal/protocol.go:8-10 | defines `nonce-seq-session.label.aura.net.`; its shape and inverse are stated by the next row and by `Tunnel.BuildQueryNameRoundTrip` |
| Protocol.BuildQueryNameShape | internal/protocol.go:8-10 | a built name ends in `.aura.net.`, ends with a dot, and splits on `.` into at least five pieces |
| AuraServer.ParseQueryName | internal/server.go:12-28 | parsing succeeds if and only if there are at least three `.`-pieces and the first has at least three `-`-pieces; the fields hold no separators, and nonce, seq and session start the name |
| AuraServer.ParseQueryNameOf | internal/server.go:12-28 | a name `nonce-seq-session<extra>.label.<rest>` with separator-free fields parses back into those fields, for any `rest` and any dot-free `extra` that is empty or starts with `-` |
| AuraServer.DecodeLabelToDataUpper | internal/server.go:32-37 | the empty label is empty data with no error |
| AuraServer.DecodeIgnoresCase | internal/server.go:32-37 | decoding gives the same result whatever case the label is written in |
| AuraServer.PackDataToIPv6Truncating | internal/server.go:39-43 | the address is always 16 bytes: short data is zero-padded, longer data is cut to its first 16 bytes |
| AuraServer.SeqNumberOfFormat04x | internal/server.go:108-112 | every client `%04x` field reads back as the same sequence number |
| AuraServer.SeqNumber | internal/server.go:108-112 | defines the sequence number as the big-endian value of the decoded bytes when there are exactly two; pinned by the next two rows and by `AuraServer.SeqNumberOfFormat04x` |
| AuraServer.SeqNumberIgnoresDecodeError | internal/server.go:108-112 | for every field: it reads as a number if and only if it starts with two hex pairs not followed by a third; the number depends only on the first four characters and is their big-endian hex value |
| AuraServer.SeqNumberExamples | internal/server.go:108-112 | `abcdz` reads as `0xabcd`; `abcdef` is dropped |
| AuraServer.Admit | internal/server.go:96-112 | defines the admission test of `handleDNS`; `AuraServer.AdmitConditions` states it |
| AuraServer.Absorb | internal/server.go:118-125 | defines the session update for one chunk; `AuraServer.AbsorbSuppressesDuplicates` states it |
| AuraServer.AdmitConditions | internal/server.go:96-112 | a query is served if and only if it has a question, asks for AAAA, lies in the zone, parses, and its seq field decodes to two bytes; the number is their big-endian value |
| AuraServer.AbsorbSuppressesDuplicates | internal/server.go:118-125 | a chunk changes the session if and only if the label is non-empty, decodes and its number is unseen; once seen, no later label changes anything; the invariant is kept |
| AuraServer.Drain | internal/server.go:131-141 | the payload is the first `min(16, n)` bytes and payload plus remainder is the old buffer |
| AuraServer.DrainTimes | internal/server.go:131-141 | `k` replies in a row give `k` payloads |
| AuraServer.DrainPreservesOrder | internal/server.go:131-141 | `ceil(n/16)` consecutive replies carry exactly the buffered bytes in order, 16 per reply but the last |
| AuraServer.Session.constructor | internal/server.go:160-168 | a new session has empty buffers and maps, and a connection exactly when the dial succeeded |
| AuraServer.Session.StoreChunk | internal/server.go:118-125 | the session state becomes `Absorb` of the old one; stored if and only if non-empty, decodable and unseen |
| AuraServer.Session.TakePayload | internal/server.go:131-141 | payload and new `inBuffer` are the `Drain` of the old buffer |
| AuraServer.Session.Exchange | internal/server.go:118-141 | the store step and then the drain step on one session |
| AuraServer.Session.ForwardToWhatsApp | internal/server.go:177-185 | the chunk is written and deleted if and only if it is buffered and there is a connection; otherwise nothing changes |
| AuraServer.Session.ReadFromWhatsApp | internal/server.go:187-199 | `inBuffer` grows by every read before the first error, in order |
| AuraServer.Server.constructor | internal/server.go:82-87 | a new server has the zone and no sessions |
| AuraServer.Server.GetSession | internal/server.go:153-175 | an existing session is returned unchanged; a new one is registered only if the dial succeeds, and otherwise is returned empty and unregistered |
| AuraServer.Server.ExchangeIn | internal/server.go:118-141 | the exchange on one session keeps the server invariant and leaves every other session untouched |
| AuraServer.Server.Serve | internal/server.go:114-148 | the looked-up session is updated by `Absorb` and `Drain`; the answer is one AAAA record with the packed payload exactly when there was one; other sessions are untouched |
| AuraServer.Server.HandleDNS | internal/server.go:96-149 | there is a reply if and only if `Admit` passes; a dropped query changes nothing; the reply echoes only the first question; the session table only grows, a session is created exactly when the id was new and the dial succeeded, the addressed session is updated by `Absorb` and `Drain`, and every other session is untouched |
| AuraClient.RandomHex | internal/client.go:94-98 | `randomHex(n)` has `n/2*2` hex digits that decode back to the random bytes |
| AuraClient.EffectiveDNSServer | internal/client.go:68-92 | a configured server wins; otherwise the first resolver, with `:53` added exactly when it holds no colon; otherwise `8.8.8.8:53` |
| AuraClient.UpstreamQueryName | internal/client.go:289-290 | defines the upstream name `nonce-%04x-session.label.domain`; `Tunnel.UpstreamNameRoundTrip` states that the server parses it back |
| AuraClient.PollQueryName | internal/client.go:369 | defines the poll name `nonce-ffff-session.domain`; `Tunnel.PollNameParsesAsData` states how the server reads it |
| AuraClient.Chunks | internal/client.go:320-330 | defines the 30-byte chunking; the next three rows state it |
| AuraClient.ChunksFlatten | internal/client.go:320-330 | the chunks concatenate back to the record |
| AuraClient.ChunksCount | internal/client.go:320-330 | a record of `n` bytes is cut into `ceil(n/30)` chunks |
| AuraClient.ChunksSizes | internal/client.go:320-330 | every chunk holds 1 to 30 bytes, and all but the last hold exactly 30 |
| AuraClient.Client.constructor | internal/client.go:52-64 | port 0 becomes 1080; the session id is four hex digits of two random bytes; `Seq` starts at 0 |
| AuraClient.Client.SendDNSPacket | internal/client.go:274-296 | the query is named with the current `Seq`, which then advances modulo 2^16 |
| AuraClient.Client.FlushTLSRecord | internal/client.go:320-330 | one query per chunk, in order, with consecutive sequence numbers modulo 2^16 |
| AuraClient.Client.PollDNS | internal/client.go:366-405 | the poll is `nonce-ffff-session.domain`; the output is the AAAA payload of the answers, or nothing on error |
| AuraClient.AAAAPayload | internal/client.go:394-400 | defines the concatenation of AAAA addresses; the next two rows state it |
| AuraClient.AAAAPayloadLength | internal/client.go:394-400 | the output holds 16 bytes per AAAA answer |
| AuraClient.ExtractAAAA | internal/client.go:394-400 | the loop concatenates the AAAA addresses in answer order and skips other records |
| AuraClient.SplitTLSRecord | internal/client.go:203-223 | a record is split off if and only if the 5-byte header and the big-endian length it announces are present; record plus rest is the input |
| AuraClient.BufferedConn.ReadFull | internal/client.go:165-172 | `io.ReadFull` succeeds if and only if enough bytes remain, and consumes them |
| AuraClient.BufferedConn.BufferTLSRecord | internal/client.go:203-223 | the record of `SplitTLSRecord` is buffered and the fast path armed; on a short read the input is used up |
| AuraClient.BufferedConn.FlushPendingTLSRecord | internal/client.go:248-252 | a pending record is flushed once: one query per chunk, named with consecutive sequence numbers from the old counter, which ends advanced by the number of chunks; it is never pending afterwards |
| AuraClient.GreetingLength | internal/client.go:164-173 | a complete greeting is 2 to 257 bytes and fits in the input; any 257 bytes hold one |
| AuraClient.RequestLength | internal/client.go:175-196 | a complete request carries CONNECT and is 4 to 262 bytes, within the input |
| AuraClient.ReadGreeting | internal/client.go:164-173 | the greeting consumes two bytes and the methods it announces; a short greeting consumes all input |
| AuraClient.ReadRequest | internal/client.go:175-196 | the request consumes its head and, for IPv4 or a domain name, the address and port; a command other than CONNECT consumes the head only, and a short request consumes all input |
| AuraClient.HandleSocks5Conn | internal/client.go:129-201 | a first byte other than 5 takes the transparent tunnel, buffering a TLS record for 0x16; 5 replies `05 00`, then the success reply exactly when a CONNECT request parses |
| AuraClient.IPv6DestinationLeftUnread | internal/client.go:183-196 | an IPv6 destination is not consumed: the request is taken to end after its four-byte head |
| Mobile.MobileEngine.constructor | internal/mobile.go:9-13 | nothing is running at first |
| Mobile.MobileEngine.StartAuraClient | internal/mobile.go:17-31 | while running, "already running" and no change; otherwise a fresh uncancelled context and no error |
| Mobile.MobileEngine.StopAuraClient | internal/mobile.go:34-42 | the running context is cancelled and both variables are cleared; when idle nothing happens |
| Mobile.StartStopStart | internal/mobile.go:17-42 | start, stop and start again: both starts succeed and the first context is cancelled |
| Mobile.DoubleStartDoubleStop | internal/mobile.go:17-42 | a second start is refused, and two stops leave nothing running |
| VpnPlatform.TunnelConfig | flutter_aura/android/app/src/main/kotlin/com/aura/flutter_aura/AuraVpnService.kt:64-67 | the interface has address 10.0.0.2/32, route 0.0.0.0/0, and the given DNS servers |
| VpnPlatform.DnsHost | flutter_aura/android/app/src/main/kotlin/com/aura/flutter_aura/AuraVpnService.kt:71 | the host is the text before the first colon: colon-free, a prefix, the whole text when there is no colon |
| VpnPlatform.RunLoop | flutter_aura/android/app/src/main/kotlin/com/aura/flutter_aura/AuraVpnService.kt:155-198 | defines what the loop forwards and how it ends for a list of events; the next four rows state it |
| VpnPlatform.IdleReadContinues | flutter_aura/android/app/src/main/kotlin/com/aura/flutter_aura/AuraVpnService.kt:163-167 | a read of length at most 0 sleeps and continues; it never ends the loop |
| VpnPlatform.ForwardErrorContinues | flutter_aura/android/app/src/main/kotlin/com/aura/flutter_aura/AuraVpnService.kt:175-182 | a packet whose forwarding throws is dropped and the loop goes on |
| VpnPlatform.LoopEndsOnlyOnStop | AuraMobileClient/app/src/main/kotlin/com/aura/client/AuraVpnService.kt:151-175 | the loop is still running if and only if every event so far was a read that returned |
| VpnPlatform.ForwardedArePositiveReads | flutter_aura/android/app/src/main/kotlin/com/aura/flutter_aura/AuraVpnService.kt:161-185 | every forwarded packet has positive length and came from a read |
| VpnPlatform.ForwardPackets | flutter_aura/android/app/src/main/kotlin/com/aura/flutter_aura/AuraVpnService.kt:155-198 | the loop forwards and ends as `RunLoop` of the events it sees |
| FlutterVpn.FlutterDnsServers | flutter_aura/android/app/src/main/kotlin/com/aura/flutter_aura/AuraVpnService.kt:70-75 | exactly one DNS server: the host of a non-empty `dnsServer`, or 8.8.8.8 |
| FlutterVpn.AuraVpnService.constructor | flutter_aura/android/app/src/main/kotlin/com/aura/flutter_aura/AuraVpnService.kt:34-37 | a new service holds no interface or thread and is not running |
| FlutterVpn.AuraVpnService.AnswerPending | flutter_aura/android/app/src/main/kotlin/com/aura/flutter_aura/AuraVpnService.kt:106-108 | the pending result, if any, gets exactly this one answer and the slot is emptied |
| FlutterVpn.AuraVpnService.LaunchEngine | flutter_aura/android/app/src/main/kotlin/com/aura/flutter_aura/AuraVpnService.kt:90-108 | the engine is started once with the given server and domain; an error closes the new interface once and drops it, leaving the service stopped and the result unanswered; otherwise both flags are set, the interface is kept, a new thread runs and "" is answered |
| FlutterVpn.AuraVpnService.StartVpn | flutter_aura/android/app/src/main/kotlin/com/aura/flutter_aura/AuraVpnService.kt:53-120 | while running: "VPN already running" and nothing built or started; a failed `establish` never starts the engine; an engine error closes the new interface once and answers `VPN_ERROR`; success runs with an open interface and answers ""; the result slot ends empty |
| FlutterVpn.AuraVpnService.StopVpn | flutter_aura/android/app/src/main/kotlin/com/aura/flutter_aura/AuraVpnService.kt:122-153 | both flags cleared, the engine stopped, the interface closed once and dropped, the thread interrupted and dropped, "" answered, the slot emptied |
| FlutterVpn.StopTwiceClosesOnce | flutter_aura/android/app/src/main/kotlin/com/aura/flutter_aura/AuraVpnService.kt:122-153 | two stops close the interface once; after an engine failure a new start is not refused |
| MobileVpn.MobileDnsServers | AuraMobileClient/app/src/main/kotlin/com/aura/client/AuraVpnService.kt:60-66 | exactly the host of a non-empty `dnsServer`, or no DNS server at all |
| MobileVpn.AuraVpnService.constructor | AuraMobileClient/app/src/main/kotlin/com/aura/client/AuraVpnService.kt:25-28 | a new service holds no interface or thread and is not running |
| MobileVpn.AuraVpnService.LaunchEngine | AuraMobileClient/app/src/main/kotlin/com/aura/client/AuraVpnService.kt:81-96 | the engine is started once; an error closes the new interface once and drops it and is returned for the log; otherwise both flags are set, the interface is kept and a new thread runs |
| MobileVpn.AuraVpnService.StartVpn | AuraMobileClient/app/src/main/kotlin/com/aura/client/AuraVpnService.kt:44-107 | while running nothing happens; failures roll back as in the Flutter service and report the logged message; success runs with an open interface |
| MobileVpn.AuraVpnService.StopVpn | AuraMobileClient/app/src/main/kotlin/com/aura/client/AuraVpnService.kt:109-144 | both flags cleared, a `stopTunnel` error only reported, the interface closed once and dropped, the thread interrupted and dropped |
| MobileVpn.StopErrorStillStops | AuraMobileClient/app/src/main/kotlin/com/aura/client/AuraVpnService.kt:116-123 | a `stopTunnel` error is only logged: the interface is closed and the next start goes ahead |
| Tunnel.Format04xHasNoSeparators | internal/client.go:290 | the sequence field holds neither `-` nor `.` |
| Tunnel.LabelHasNoDot | internal/dnsutil.go:13-15 | a data label holds no `.` |
| Tunnel.LabelRoundTrip | internal/server.go:32-37 | the server decodes every client label back to the client's data |
| Tunnel.UpstreamNameRoundTrip | internal/client.go:289-290 | the server parses an upstream name into the client's nonce, `%04x` field, session and label, and these read back as the counter and the data |
| Tunnel.UpstreamQueryAdmitted | internal/server.go:96-112 | in the server's zone, the client's upstream query is admitted under the client's sequence number |
| Tunnel.BuildQueryNameRoundTrip | internal/protocol.go:8-10 | `ParseQueryName` inverts `BuildQueryName` on separator-free fields |
| Tunnel.AuraLabelDecodes | internal/server.go:32-37 | the label `aura` decodes to two bytes |
| Tunnel.PollSequence | internal/server.go:108-112 | the poll field `ffff` reads as `0xffff` |
| Tunnel.PollNameParsesAsData | internal/client.go:369 | in `aura.net.` a poll parses with number `0xffff` and data label `aura`, which decodes to two bytes |
| Tunnel.PollTakesSequenceFFFF | internal/server.go:118-125 | the first poll of a session stores two bytes under `0xffff`, and a later chunk numbered `0xffff` is then ignored |
| Tunnel.SixLetterZoneLabelStored | internal/server.go:118-125 | in a zone whose first label is `tunnel`, a poll stores an empty chunk under `0xffff` and marks that number seen |

## Left out

- Network I/O is not modelled: listening, accepting, `dns.Client.Exchange`, `net.DialTimeout` and TCP reads and writes. Received bytes, DNS answers, dial outcomes and WhatsApp reads are inputs; `sendQuery` is not modelled, and a method returns the name it would query.
- Goroutines, mutexes and `sync.WaitGroup` are not modelled; each operation runs alone. The missing `s.mu.Unlock()` on the dial-failure return at internal/server.go:160 is a locking defect that a sequential model cannot express.
- Clocks are not modelled: `lastSeen`, `SessionTimeout`, `sessionTimeoutWatcher`, the poll ticker in `dnsToTCP`, `Thread.sleep` and `join`.
- `handleTunnel`, `dnsToTCP` and the read loop of `tcpToDNS` after the flush-once step are not modelled. They only move bytes between a socket and `sendDNSPacket`/`pollDNS`, which are modelled.
- AuraClient.Client.SendDNSPacket also stands for `sendDNSPacketFast`, whose only difference is sending from a goroutine.
- Randomness is a parameter: the nonce and session bytes from `math/rand`. So is the resolver list read from `/etc/resolv.conf`; `None` stands for a read error.
- Logging is left out, except where a message is the only outcome: the native service's start failure and `stopTunnel` error are returned.
- Android and Flutter calls are abstracted. `VpnService.Builder` is recorded as the `InterfaceConfig` it is given, and `establish()` as an `EstablishOutcome`. The engine's `startTunnel`/`stopTunnel` are a recorder returning the given error text. `stopSelf`, `onStartCommand` and `onDestroy` are left out, and `MethodChannel.Result` is a list of answers.
- The `forwardToSocks5` placeholder in the Flutter service, and the logging body of the native service's loop, are events of the loop: only whether forwarding throws is modelled.
- VpnPlatform.ForwardPackets: one loop stands for both services' `forwardPackets`, which differ only in what the per-packet body logs. Closing the streams in `finally` is left out.
- FlutterVpn.AuraVpnService.StartVpn and MobileVpn.AuraVpnService.StartVpn do not model `close()` throwing on the engine-failure path. In that case the interface would be closed again in the catch block.
- The duplicated helper block at the top of internal/server.go, the stray line 150 and the reversed copy at line 399 are not modelled; the first readable copy is.
- The entry points in cmd/, bridge.go and the MainActivity files are not part of this model. bridge.go:26 passes three arguments to `StartAuraClient`, which takes two (internal/mobile.go:17). Inside the core, internal/mobile.go:26 calls `NewAuraClient` with one argument and internal/mobile.go:28 calls `StartSocks5` with two, against the signatures at internal/client.go:52 (three parameters) and internal/client.go:101 (one); the model gives `StartAuraClient` its declared parameters.
- Text.ToLower and Text.ToUpper: case mapping is ASCII only. Go's `strings.ToUpper` also maps some non-ASCII letters, which never occur in a Base32 label.
- AuraClient.HandleSocks5Conn: the peer's connection is the input byte string, and `written` is what goes back; `conn.Close` is left out.
