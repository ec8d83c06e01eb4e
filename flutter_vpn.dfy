/**
 * flutter_aura/.../AuraVpnService.kt: the VPN service of the Flutter app. It
 * builds the TUN interface, starts the Go engine, and reports the outcome
 * through a pending Flutter `MethodChannel.Result` kept in its companion object.
 */
module FlutterVpn {
  import opened Wrappers
  import opened VpnPlatform

  const FallbackDnsServer: string := "8.8.8.8"
  const AlreadyRunningMessage: string := "VPN already running"
  const VpnErrorCode: string := "VPN_ERROR"

  /** The DNS servers given to the builder: the host part of `dnsServer`, or 8.8.8.8 when it is empty. */
  function FlutterDnsServers(dnsServer: string): (servers: seq<string>)
    ensures |servers| == 1
    ensures dnsServer == "" ==> servers == [FallbackDnsServer]
    ensures dnsServer != "" ==> ':' !in servers[0] && Text.HasPrefix(dnsServer, servers[0])
    ensures dnsServer != "" ==> servers == [DnsHost(dnsServer)]
  {
    if dnsServer != "" then [DnsHost(dnsServer)] else [FallbackDnsServer]
  }

  /** An answer given to Flutter through `MethodChannel.Result`. */
  datatype Answer = Success(value: string) | Error(code: string, message: string)

  /** A pending `MethodChannel.Result`; `answers` is everything it has been told. */
  class PendingResult {
    var answers: seq<Answer>

    constructor ()
      ensures answers == []
    {
      answers := [];
    }

    method Answer(a: Answer)
      modifies this
      ensures answers == old(answers) + [a]
    {
      answers := answers + [a];
    }
  }

  /** The companion object: `isRunning` and the pending `result`, shared by every instance. */
  class Companion {
    var isRunning: bool
    var result: PendingResult?

    constructor ()
      ensures !isRunning && result == null
    {
      isRunning := false;
      result := null;
    }
  }

  class AuraVpnService {
    const companion: Companion
    const engine: TunnelEngine
    var vpnInterface: Pfd?
    var vpnThread: ForwarderThread?
    var running: bool
    /** Every interface this service has established, in order. */
    ghost var built: seq<Pfd>

    /**
     * The service invariant: the two running flags agree; an interface and a
     * thread are held exactly while running, and the interface held is open;
     * every other interface ever established has been closed exactly once.
     */
    ghost predicate Valid()
      reads this, companion, built
    {
      companion.isRunning == running
      && (running <==> vpnInterface != null)
      && (vpnThread != null ==> running)
      && (vpnInterface != null ==> vpnInterface in built && vpnInterface.closeCount == 0)
      && (forall p :: p in built && p != vpnInterface ==> p.closeCount == 1)
    }

    constructor (companion: Companion, engine: TunnelEngine)
      requires !companion.isRunning
      ensures this.companion == companion && this.engine == engine
      ensures vpnInterface == null && vpnThread == null && !running && built == [] && Valid()
    {
      this.companion := companion;
      this.engine := engine;
      vpnInterface := null;
      vpnThread := null;
      running := false;
      built := [];
    }

    /** `result?.success(...)` or `result?.error(...)` followed by `result = null`. */
    method AnswerPending(a: Answer)
      modifies companion, companion.result
      ensures companion.result == null && companion.isRunning == old(companion.isRunning)
      ensures old(companion.result) != null ==> old(companion.result).answers == old(companion.result.answers) + [a]
    {
      if companion.result != null {
        companion.result.Answer(a);
      }
      companion.result := null;
    }

    /**
     * The part of `startVpn` after `establish()` returned an interface: start
     * the engine; on an error close the interface and drop it, otherwise set
     * both flags, start the forwarding thread and answer "". The error, if
     * any, is returned for the catch block to report.
     */
    method LaunchEngine(dnsServer: string, domain: string, engineOutcome: string) returns (failure: Option<string>)
      requires Valid() && !running
      modifies this, companion, engine, companion.result
      ensures Valid()
      ensures failure == (if engineOutcome == "" then None else Some(engineOutcome))
      ensures engine.startCalls == old(engine.startCalls) + [(dnsServer, domain)]
      ensures |built| == |old(built)| + 1 && built[..|old(built)|] == old(built) && fresh(built[|old(built)|])
      ensures failure.Some? ==>
        !running && vpnInterface == null && built[|old(built)|].closeCount == 1
        && companion.result == old(companion.result)
        && (old(companion.result) != null ==> old(companion.result).answers == old(companion.result.answers))
      ensures failure.None? ==>
        running && vpnInterface == built[|old(built)|] && vpnThread != null && fresh(vpnThread)
        && companion.result == null
        && (old(companion.result) != null ==> old(companion.result).answers == old(companion.result.answers) + [Success("")])
    {
      var pfd := new Pfd();
      vpnInterface := pfd;
      built := built + [pfd];
      var error := engine.StartTunnel(dnsServer, domain, engineOutcome);
      if error != "" {
        pfd.Close();
        vpnInterface := null;
        failure := Some(error);
      } else {
        companion.isRunning := true;
        running := true;
        vpnThread := new ForwarderThread();
        AnswerPending(Success(""));
        failure := None;
      }
    }

    /**
     * `startVpn`. While running it only answers "VPN already running".
     * Otherwise it configures the builder (returned as `config`) and, when
     * `establish` yields an interface, starts the engine, whose error text is
     * `engineOutcome`. Any failure closes the new interface once, clears both
     * flags and answers `VPN_ERROR`; success sets both flags, keeps the
     * interface, starts the forwarding thread and answers "". Every path
     * empties the result slot.
     */
    method StartVpn(dnsServer: string, domain: string, establish: EstablishOutcome, engineOutcome: string)
      returns (config: Option<InterfaceConfig>)
      requires Valid()
      modifies this, companion, engine, companion.result
      ensures Valid()
      ensures companion.result == null
      ensures companion.isRunning ==> vpnInterface != null
      ensures old(companion.isRunning) ==>
        config.None? && running && vpnInterface == old(vpnInterface) && vpnThread == old(vpnThread)
        && built == old(built) && engine.startCalls == old(engine.startCalls)
        && (old(companion.result) != null ==>
              old(companion.result).answers == old(companion.result.answers) + [Success(AlreadyRunningMessage)])
      ensures !old(companion.isRunning) ==> config == Some(TunnelConfig(FlutterDnsServers(dnsServer)))
      ensures !old(companion.isRunning) && !establish.Established? ==>
        !running && vpnInterface == null && built == old(built) && engine.startCalls == old(engine.startCalls)
        && (old(companion.result) != null ==>
              old(companion.result).answers == old(companion.result.answers)
                + [Error(VpnErrorCode, if establish.ReturnedNull? then EstablishFailed else establish.message)])
      ensures !old(companion.isRunning) && establish.Established? ==>
        engine.startCalls == old(engine.startCalls) + [(dnsServer, domain)]
        && |built| == |old(built)| + 1 && built[..|old(built)|] == old(built) && fresh(built[|old(built)|])
      ensures !old(companion.isRunning) && establish.Established? && engineOutcome != "" ==>
        !running && vpnInterface == null && built[|old(built)|].closeCount == 1
        && (old(companion.result) != null ==>
              old(companion.result).answers == old(companion.result.answers) + [Error(VpnErrorCode, engineOutcome)])
      ensures !old(companion.isRunning) && establish.Established? && engineOutcome == "" ==>
        running && vpnInterface == built[|old(built)|] && vpnThread != null && fresh(vpnThread)
        && (old(companion.result) != null ==>
              old(companion.result).answers == old(companion.result.answers) + [Success("")])
    {
      config := None;
      if companion.isRunning {
        AnswerPending(Success(AlreadyRunningMessage));
        return;
      }

      // try
      var failure: Option<string> := None;
      config := Some(TunnelConfig(FlutterDnsServers(dnsServer)));
      match establish {
        case BuilderThrew(message) =>
          failure := Some(message);
        case ReturnedNull =>
          vpnInterface := null;
          failure := Some(EstablishFailed);
        case Established =>
          failure := LaunchEngine(dnsServer, domain, engineOutcome);
      }

      // catch
      if failure.Some? {
        companion.isRunning := false;
        running := false;
        // `vpnInterface?.close()` here finds null on every path: the engine
        // failure path has already closed and dropped the interface.
        assert vpnInterface == null;
        AnswerPending(Error(VpnErrorCode, failure.value));
      }
    }

    /**
     * `stopVpn`: unconditionally clear both flags, stop the engine (its
     * exceptions are swallowed), close and drop the interface, interrupt and
     * drop the thread, and answer "" to a pending result. A second stop finds
     * no interface and closes nothing.
     */
    method StopVpn()
      requires Valid()
      modifies this, companion, engine, vpnInterface, vpnThread, companion.result
      ensures Valid()
      ensures !running && !companion.isRunning && vpnInterface == null && vpnThread == null
      ensures companion.result == null
      ensures built == old(built) && engine.stopCalls == old(engine.stopCalls) + 1
      ensures old(vpnInterface) != null ==> old(vpnInterface).closeCount == 1
      ensures old(vpnThread) != null ==> old(vpnThread).interrupted
      ensures old(companion.result) != null ==>
        old(companion.result).answers == old(companion.result.answers) + [Success("")]
    {
      running := false;
      companion.isRunning := false;

      var _ := engine.StopTunnel("");

      if vpnInterface != null {
        vpnInterface.Close();
      }
      vpnInterface := null;

      if vpnThread != null {
        vpnThread.Interrupt();
      }
      vpnThread := null;

      AnswerPending(Success(""));
    }
  }

  /**
   * A started service stopped twice closes its interface exactly once; a start
   * whose engine fails leaves the service stopped, so a second start is not
   * refused as "already running".
   */
  method StopTwiceClosesOnce() returns (closes: nat, retried: Option<InterfaceConfig>, runningAfter: bool)
    ensures closes == 1
    ensures retried == Some(TunnelConfig([FallbackDnsServer])) && runningAfter
  {
    var companion := new Companion();
    var engine := new TunnelEngine();
    var service := new AuraVpnService(companion, engine);
    var _ := service.StartVpn("1.1.1.1:53", "aura.net.", Established, "");
    var pfd := service.vpnInterface;
    service.StopVpn();
    service.StopVpn();
    closes := pfd.closeCount;

    var _ := service.StartVpn("", "aura.net.", Established, "engine failed");
    retried := service.StartVpn("", "aura.net.", Established, "");
    runningAfter := service.running;
  }
}
