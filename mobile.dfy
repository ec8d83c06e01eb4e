/**
 * internal/mobile.go: the single running instance of the client on a phone,
 * held in two package variables under a mutex.
 */
module Mobile {
  import opened Wrappers

  const AlreadyRunning: string := "Aura client already running"

  /** The context made by `context.WithCancel`; `cancelled` records a call to its cancel function. */
  class CancelContext {
    var cancelled: bool

    constructor ()
      ensures !cancelled
    {
      cancelled := false;
    }

    method Cancel()
      modifies this
      ensures cancelled
    {
      cancelled := true;
    }
  }

  /**
   * The package state: `runningCtx` and `runningCancel`. The cancel function
   * is represented by the context it cancels.
   */
  class MobileEngine {
    var runningCtx: CancelContext?
    var runningCancel: CancelContext?

    /** Both variables are set together, to the same context, or both are nil. */
    ghost predicate Valid()
      reads this
    {
      (runningCtx == null <==> runningCancel == null) && runningCancel == runningCtx
    }

    constructor ()
      ensures runningCtx == null && runningCancel == null && Valid()
    {
      runningCtx := null;
      runningCancel := null;
    }

    /**
     * `StartAuraClient`: refused while a context is held; otherwise a new,
     * uncancelled context is recorded and nil is returned, whatever the proxy
     * goroutine does later.
     */
    method StartAuraClient(dnsServer: string, domain: string) returns (err: Option<string>)
      requires Valid()
      modifies this
      ensures Valid()
      ensures old(runningCtx) != null ==>
        err == Some(AlreadyRunning) && runningCtx == old(runningCtx) && runningCancel == old(runningCancel)
      ensures old(runningCtx) == null ==>
        err.None? && runningCtx != null && fresh(runningCtx) && !runningCtx.cancelled
    {
      if runningCtx != null {
        return Some(AlreadyRunning);
      }
      var ctx := new CancelContext();
      runningCtx, runningCancel := ctx, ctx;
      err := None;
    }

    /** `StopAuraClient`: cancel the running context, if any, and forget it. */
    method StopAuraClient()
      requires Valid()
      modifies this, runningCancel
      ensures Valid()
      ensures runningCtx == null && runningCancel == null
      ensures old(runningCancel) != null ==> old(runningCancel).cancelled
    {
      if runningCancel != null {
        runningCancel.Cancel();
        runningCancel := null;
        runningCtx := null;
      }
    }
  }

  /** Start, stop and start again: both starts succeed, and the first context ends cancelled. */
  method StartStopStart() returns (first: Option<string>, second: Option<string>, firstCancelled: bool)
    ensures first.None? && second.None? && firstCancelled
  {
    var engine := new MobileEngine();
    first := engine.StartAuraClient("", "aura.net.");
    var ctx := engine.runningCtx;
    engine.StopAuraClient();
    second := engine.StartAuraClient("", "aura.net.");
    firstCancelled := ctx.cancelled;
  }

  /** A second start while running is refused, and stopping twice is the same as stopping once. */
  method DoubleStartDoubleStop() returns (second: Option<string>, runningAfter: bool)
    ensures second == Some(AlreadyRunning) && !runningAfter
  {
    var engine := new MobileEngine();
    var first := engine.StartAuraClient("", "aura.net.");
    second := engine.StartAuraClient("", "aura.net.");
    engine.StopAuraClient();
    engine.StopAuraClient();
    runningAfter := engine.runningCtx != null;
  }
}
