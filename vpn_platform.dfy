/**
 * What the two `AuraVpnService` classes share: the Android objects they hold,
 * the interface they configure, and the packet-forwarding loop they run.
 */
module VpnPlatform {
  import Text

  /** A `ParcelFileDescriptor` for the TUN interface; `closeCount` counts the calls to `close()`. */
  class Pfd {
    var closeCount: nat

    constructor ()
      ensures closeCount == 0
    {
      closeCount := 0;
    }

    method Close()
      modifies this
      ensures closeCount == old(closeCount) + 1
    {
      closeCount := closeCount + 1;
    }
  }

  /** The forwarding `Thread`; `interrupted` records a call to `interrupt()`. */
  class ForwarderThread {
    var interrupted: bool

    constructor ()
      ensures !interrupted
    {
      interrupted := false;
    }

    method Interrupt()
      modifies this
      ensures interrupted
    {
      interrupted := true;
    }
  }

  /**
   * The Go engine behind `Internal.startTunnel` and `Internal.stopTunnel`,
   * which lies outside this model: it records the calls, and the error text
   * each call returns is chosen by the caller.
   */
  class TunnelEngine {
    var startCalls: seq<(string, string)>
    var stopCalls: nat

    constructor ()
      ensures startCalls == [] && stopCalls == 0
    {
      startCalls := [];
      stopCalls := 0;
    }

    method StartTunnel(dnsServer: string, domain: string, outcome: string) returns (error: string)
      modifies this
      ensures error == outcome
      ensures startCalls == old(startCalls) + [(dnsServer, domain)] && stopCalls == old(stopCalls)
    {
      startCalls := startCalls + [(dnsServer, domain)];
      error := outcome;
    }

    method StopTunnel(outcome: string) returns (error: string)
      modifies this
      ensures error == outcome
      ensures stopCalls == old(stopCalls) + 1 && startCalls == old(startCalls)
    {
      stopCalls := stopCalls + 1;
      error := outcome;
    }
  }

  /** What `builder.establish()` does: hand out an interface, return null, or throw with a message. */
  datatype EstablishOutcome = Established | ReturnedNull | BuilderThrew(message: string)

  const EstablishFailed: string := "Failed to establish VPN interface"

  /** What `VpnService.Builder` is told before `establish()`. */
  datatype InterfaceConfig = InterfaceConfig(
    session: string, address: string, addressPrefix: nat, route: string, routePrefix: nat, dnsServers: seq<string>)

  const SessionName: string := "Aura DNS Tunnel"
  const VpnAddress: string := "10.0.0.2"
  const VpnRoute: string := "0.0.0.0"

  /** The interface both services build: one address, the default route, and the given DNS servers. */
  function TunnelConfig(dnsServers: seq<string>): (c: InterfaceConfig)
    ensures c.address == VpnAddress && c.addressPrefix == 32
    ensures c.route == VpnRoute && c.routePrefix == 0
    ensures c.dnsServers == dnsServers
  {
    InterfaceConfig(SessionName, VpnAddress, 32, VpnRoute, 0, dnsServers)
  }

  /** `dnsServer.split(":")[0]`: the host part, everything before the first colon. */
  function DnsHost(dnsServer: string): (host: string)
    ensures ':' !in host
    ensures Text.HasPrefix(dnsServer, host)
    ensures ':' !in dnsServer ==> host == dnsServer
    ensures ':' in dnsServer ==> dnsServer[|host|] == ':'
  {
    FirstPieceFacts(dnsServer, ':');
    Text.Split(dnsServer, ':')[0]
  }

  lemma FirstPieceFacts(s: string, sep: char)
    ensures var first := Text.Split(s, sep)[0];
      Text.HasPrefix(s, first) && (sep !in s ==> first == s) && (sep in s ==> s[|first|] == sep)
  {
    Text.SplitFirst(s, sep);
    if sep in s {
      Text.SplitHead(s, sep);
    } else {
      Text.NoSepCount(s, sep);
    }
  }

  /**
   * What happens at one turn of `forwardPackets`: a read returning `length`
   * (with `forwardFails` when forwarding that packet throws), a read that
   * throws, another thread clearing `running`, or another thread interrupting
   * this one.
   */
  datatype LoopEvent = Read(length: int, forwardFails: bool) | ReadThrows | Stopped | Interrupted

  /** Why the loop ended, or `StillRunning` when the events ran out first. */
  datatype LoopExit = StillRunning | RunningCleared | InterruptedExit | ExceptionEscaped

  datatype LoopOutcome = LoopOutcome(forwarded: seq<nat>, exit: LoopExit)

  /** `forwardPackets` as a function of the events it sees: the lengths it forwards and how it ends. */
  function RunLoop(events: seq<LoopEvent>): LoopOutcome
  {
    if events == [] then LoopOutcome([], StillRunning)
    else match events[0]
      case Stopped => LoopOutcome([], RunningCleared)
      case Interrupted => LoopOutcome([], InterruptedExit)
      case ReadThrows => LoopOutcome([], ExceptionEscaped)
      case Read(length, forwardFails) =>
        var rest := RunLoop(events[1..]);
        if length <= 0 || forwardFails then rest
        else rest.(forwarded := [length] + rest.forwarded)
  }

  /** An empty read backs off and goes on; it never ends the loop. */
  lemma IdleReadContinues(length: int, forwardFails: bool, events: seq<LoopEvent>)
    requires length <= 0
    ensures RunLoop([Read(length, forwardFails)] + events) == RunLoop(events)
  {
    assert ([Read(length, forwardFails)] + events)[1..] == events;
  }

  /** A packet whose forwarding throws is dropped and the loop goes on. */
  lemma ForwardErrorContinues(length: int, events: seq<LoopEvent>)
    ensures RunLoop([Read(length, true)] + events) == RunLoop(events)
  {
    assert ([Read(length, true)] + events)[1..] == events;
  }

  /**
   * The loop ends only when `running` is cleared, the thread is interrupted,
   * or an exception escapes: it is still running exactly when every event
   * was a read that returned.
   */
  lemma {:induction false} LoopEndsOnlyOnStop(events: seq<LoopEvent>)
    ensures RunLoop(events).exit == StillRunning <==> forall i :: 0 <= i < |events| ==> events[i].Read?
  {
    if events != [] && events[0].Read? {
      LoopEndsOnlyOnStop(events[1..]);
      assert forall i :: 1 <= i < |events| ==> events[i] == events[1..][i - 1];
    }
  }

  /** Every forwarded packet is a positive length that some read returned. */
  lemma {:induction false} ForwardedArePositiveReads(events: seq<LoopEvent>)
    ensures forall k :: 0 <= k < |RunLoop(events).forwarded| ==>
      RunLoop(events).forwarded[k] > 0 && Read(RunLoop(events).forwarded[k], false) in events
  {
    if events != [] && events[0].Read? {
      ForwardedArePositiveReads(events[1..]);
      forall e | e in events[1..] ensures e in events {
        var j :| 0 <= j < |events[1..]| && events[1..][j] == e;
        assert events[j + 1] == e;
      }
    }
  }

  /**
   * `forwardPackets`: while `running` and not interrupted, read a packet;
   * an empty read sleeps and continues, a packet is forwarded with its own
   * failures caught; an exception from the read leaves the loop.
   */
  method ForwardPackets(events: seq<LoopEvent>) returns (forwarded: seq<nat>, exit: LoopExit)
    ensures LoopOutcome(forwarded, exit) == RunLoop(events)
  {
    forwarded := [];
    var running, interrupted := true, false;
    var i := 0;
    exit := StillRunning;
    while running && !interrupted && i < |events|
      invariant 0 <= i <= |events|
      invariant running && !interrupted ==> RunLoop(events) == RunLoop(events[i..]).(forwarded := forwarded + RunLoop(events[i..]).forwarded)
      invariant !(running && !interrupted) ==> LoopOutcome(forwarded, exit) == RunLoop(events)
      invariant exit == StillRunning <==> running && !interrupted
      decreases |events| - i, running, !interrupted
    {
      assert events[i..][1..] == events[i + 1..];
      match events[i] {
        case Stopped =>
          running := false;
          exit := RunningCleared;
        case Interrupted =>
          interrupted := true;
          exit := InterruptedExit;
        case ReadThrows =>
          exit := ExceptionEscaped;
          break;
        case Read(length, forwardFails) =>
          if length <= 0 {
            i := i + 1;
            continue;
          }
          if !forwardFails {
            forwarded := forwarded + [length];
          }
      }
      i := i + 1;
    }
    if exit == StillRunning {
      assert events[i..] == [];
    }
  }
}
