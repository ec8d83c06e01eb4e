/**
 * AuraMobileClient/.../AuraVpnService.kt: the VPN service of the native
 * Android app. It behaves like the Flutter service but answers nobody: its
 * outcomes go to the log only, and with no DNS server given it adds none.
 */
module MobileVpn {
  import opened Wrappers
  import opened VpnPlatform

  /** The DNS servers given to the builder: the host part of `dnsServer`, or none when it is empty. */
  function MobileDnsServers(dnsServer: string): (servers: seq<string>)
    ensures dnsServer == "" <==> servers == []
    ensures dnsServer != "" ==> |servers| == 1 && ':' !in servers[0] && Text.HasPrefix(dnsServer, servers[0])
    ensures dnsServer != "" ==> servers == [DnsHost(dnsServer)]
  {
    if dnsServer != "" then [DnsHost(dnsServer)] else []
  }

  /** The companion object's `isRunning` flag, shared by every instance. */
  class Companion {
    var isRunning: bool

    constructor ()
      ensures !isRunning
    {
      isRunning := false;
    }
  }

  class AuraVpnService {
    const companion: Companion
    const engine: TunnelEngine
    var vpnInterface: Pfd?
    var vpnThread: ForwarderThread?
    var running: bool
    /** Every interface this service has established, in order. */
    ghost var built: seq<Pfd>

    /**
     * The service invariant: the two running flags agree; an interface and a
     * thread are held exactly while running, and the interface held is open;
     * every other interface ever established has been closed exactly once.
     */
    ghost predicate Valid()
      reads this, companion, built
    {
      companion.isRunning == running
      && (running <==> vpnInterface != null)
      && (vpnThread != null ==> running)
      && (vpnInterface != null ==> vpnInterface in built && vpnInterface.closeCount == 0)
      && (forall p :: p in built && p != vpnInterface ==> p.closeCount == 1)
    }

    constructor (companion: Companion, engine: TunnelEngine)
      requires !companion.isRunning
      ensures this.companion == companion && this.engine == engine
      ensures vpnInterface == null && vpnThread == null && !running && built == [] && Valid()
    {
      this.companion := companion;
      this.engine := engine;
      vpnInterface := null;
      vpnThread := null;
      running := false;
      built := [];
    }

    /**
     * The part of `startVpn` after `establish()` returned an interface: start
     * the engine; on an error close the interface and drop it, otherwise set
     * both flags and start the forwarding thread. The error, if any, is
     * returned for the catch block to log.
     */
    method LaunchEngine(dnsServer: string, domain: string, engineOutcome: string) returns (failure: Option<string>)
      requires Valid() && !running
      modifies this, companion, engine
      ensures Valid()
      ensures failure == (if engineOutcome == "" then None else Some(engineOutcome))
      ensures engine.startCalls == old(engine.startCalls) + [(dnsServer, domain)]
      ensures |built| == |old(built)| + 1 && built[..|old(built)|] == old(built) && fresh(built[|old(built)|])
      ensures failure.Some? ==> !running && vpnInterface == null && built[|old(built)|].closeCount == 1
      ensures failure.None? ==>
        running && vpnInterface == built[|old(built)|] && vpnThread != null && fresh(vpnThread)
    {
      var pfd := new Pfd();
      vpnInterface := pfd;
      built := built + [pfd];
      var error := engine.StartTunnel(dnsServer, domain, engineOutcome);
      if error != "" {
        pfd.Close();
        vpnInterface := null;
        failure := Some(error);
      } else {
        companion.isRunning := true;
        running := true;
        vpnThread := new ForwarderThread();
        failure := None;
      }
    }

    /**
     * `startVpn`. While running it does nothing. Otherwise it configures the
     * builder (returned as `config`) and, when `establish` yields an
     * interface, starts the engine, whose error text is `engineOutcome`. Any
     * failure closes the new interface once, clears both flags, and logs the
     * message returned as `failure`; success sets both flags, keeps the
     * interface and starts the forwarding thread.
     */
    method StartVpn(dnsServer: string, domain: string, establish: EstablishOutcome, engineOutcome: string)
      returns (config: Option<InterfaceConfig>, failure: Option<string>)
      requires Valid()
      modifies this, companion, engine
      ensures Valid()
      ensures companion.isRunning ==> vpnInterface != null
      ensures old(companion.isRunning) ==>
        config.None? && failure.None? && running && vpnInterface == old(vpnInterface)
        && vpnThread == old(vpnThread) && built == old(built) && engine.startCalls == old(engine.startCalls)
      ensures !old(companion.isRunning) ==> config == Some(TunnelConfig(MobileDnsServers(dnsServer)))
      ensures !old(companion.isRunning) && !establish.Established? ==>
        !running && vpnInterface == null && built == old(built) && engine.startCalls == old(engine.startCalls)
        && failure == Some(if establish.ReturnedNull? then EstablishFailed else establish.message)
      ensures !old(companion.isRunning) && establish.Established? ==>
        engine.startCalls == old(engine.startCalls) + [(dnsServer, domain)]
        && |built| == |old(built)| + 1 && built[..|old(built)|] == old(built) && fresh(built[|old(built)|])
      ensures !old(companion.isRunning) && establish.Established? && engineOutcome != "" ==>
        !running && vpnInterface == null && built[|old(built)|].closeCount == 1 && failure == Some(engineOutcome)
      ensures !old(companion.isRunning) && establish.Established? && engineOutcome == "" ==>
        failure.None? && running && vpnInterface == built[|old(built)|] && vpnThread != null && fresh(vpnThread)
    {
      config, failure := None, None;
      if companion.isRunning {
        return;
      }

      // try
      config := Some(TunnelConfig(MobileDnsServers(dnsServer)));
      match establish {
        case BuilderThrew(message) =>
          failure := Some(message);
        case ReturnedNull =>
          vpnInterface := null;
          failure := Some(EstablishFailed);
        case Established =>
          failure := LaunchEngine(dnsServer, domain, engineOutcome);
      }

      // catch
      if failure.Some? {
        companion.isRunning := false;
        running := false;
        // `vpnInterface?.close()` here finds null on every path: the engine
        // failure path has already closed and dropped the interface.
        assert vpnInterface == null;
      }
    }

    /**
     * `stopVpn`: unconditionally clear both flags, stop the engine and log
     * the error it returns (as `warning`), close and drop the interface, and
     * interrupt and drop the thread. A second stop closes nothing.
     */
    method StopVpn(stopOutcome: string) returns (warning: Option<string>)
      requires Valid()
      modifies this, companion, engine, vpnInterface, vpnThread
      ensures Valid()
      ensures !running && !companion.isRunning && vpnInterface == null && vpnThread == null
      ensures built == old(built) && engine.stopCalls == old(engine.stopCalls) + 1
      ensures warning.Some? <==> stopOutcome != ""
      ensures warning.Some? ==> warning.value == stopOutcome
      ensures old(vpnInterface) != null ==> old(vpnInterface).closeCount == 1
      ensures old(vpnThread) != null ==> old(vpnThread).interrupted
    {
      running := false;
      companion.isRunning := false;

      var error := engine.StopTunnel(stopOutcome);
      warning := if error != "" then Some(error) else None;

      if vpnInterface != null {
        vpnInterface.Close();
      }
      vpnInterface := null;

      if vpnThread != null {
        vpnThread.Interrupt();
      }
      vpnThread := null;
    }
  }

  /**
   * An engine error reported by `stopTunnel` is only logged: the service
   * still stops, and the next start goes ahead.
   */
  method StopErrorStillStops() returns (warning: Option<string>, restarted: bool, closes: nat)
    ensures warning == Some("engine busy") && restarted && closes == 1
  {
    var companion := new Companion();
    var engine := new TunnelEngine();
    var service := new AuraVpnService(companion, engine);
    var _, _ := service.StartVpn("", "aura.net.", Established, "");
    var pfd := service.vpnInterface;
    warning := service.StopVpn("engine busy");
    closes := pfd.closeCount;
    var _, _ := service.StartVpn("", "aura.net.", Established, "");
    restarted := companion.isRunning;
  }
}
