/** The host of the run-intent machine: it binds one background service at a time and owns the runtime.

    The controller's lock is held for the whole of each method, so a method is one step. What the system answers
    during a call is the call's World. */
module ServiceController {
  import opened Wrappers
  import RunStateMachine

  /** What a binding knows of its service. */
  datatype Connection = Waiting | Connected | Disconnected

  /** What the system answers during one call: whether the service can be bound, what the binding hears while it is
      waited for, whether the service's own start and its own stop succeed, which services the system fails to stop
      when it is asked to, and the time. */
  datatype World = World(binds: bool, hears: Connection, starts: bool, cleansUp: bool, stays: set<bool>, now: nat)

  datatype ServiceRuntime = ServiceRuntime(vpn: bool, startedAtMillis: nat)

  class ManagedServiceBinding {
    const vpn: bool
    var serviceState: Connection
    var isBound: bool

    constructor (vpn: bool)
      ensures this.vpn == vpn && serviceState == Waiting && !isBound
    {
      this.vpn, serviceState, isBound := vpn, Waiting, false;
    }

    method Bind(w: World) returns (ok: bool)
      modifies this
      ensures isBound == ok == w.binds && serviceState == Waiting
    {
      serviceState, isBound := Waiting, w.binds;
      ok := isBound;
    }

    /** Waits until the service is connected or gone, or until the wait times out. */
    method AwaitService(w: World) returns (ok: bool)
      modifies this`serviceState
      ensures serviceState == if old(serviceState) == Waiting then w.hears else old(serviceState)
      ensures ok <==> serviceState == Connected
    {
      if serviceState == Waiting {
        serviceState := w.hears;
      }
      ok := serviceState == Connected;
    }

    method Unbind()
      modifies this
      ensures !isBound && serviceState == Waiting
    {
      serviceState, isBound := Waiting, false;
    }
  }

  /** How the run-intent machine takes the answer of a start. */
  function Outcome(up: bool): RunStateMachine.HostStart {
    if up then RunStateMachine.Up else RunStateMachine.Down
  }

  /** Whether a start gets through to the service it needs: over the binding in place if that is the right one, over a
      new one otherwise. */
  predicate Reachable(binding: ManagedServiceBinding?, known: Connection, enable: bool, w: World) {
    if binding != null && binding.vpn == enable then (if known == Waiting then w.hears else known) == Connected
    else w.binds && w.hears == Connected
  }

  class ServiceController {
    var binding: ManagedServiceBinding?
    var runtime: Option<ServiceRuntime>
    var listening: bool          // whether the Core's listeners are open
    var running: set<bool>       // the services the system runs, true for the VPN one

    /** Open listeners and a run come and go together, and the run is that of the bound service. */
    ghost predicate Valid()
      reads this, binding
    {
      && (listening <==> runtime.Some?)
      && (binding != null ==> binding.isBound)
      && (runtime.Some? ==> binding != null && binding.vpn == runtime.value.vpn)
    }

    /** What the run-intent machine sees of the host. */
    ghost function Runtime(): Option<bool>
      reads this
    {
      if runtime.Some? then Some(runtime.value.vpn) else None
    }

    constructor ()
      ensures Valid() && binding == null && runtime.None? && running == {}
    {
      binding, runtime, listening, running := null, None, false, {};
    }

    method ClearBinding()
      modifies this`binding, binding
      ensures binding == null
    {
      if binding != null {
        binding.Unbind();
      }
      binding := null;
    }

    method Release()
      modifies this`binding, this`runtime, this`listening, binding
      ensures Valid() && binding == null && runtime.None?
    {
      ClearBinding();
      runtime, listening := None, false;
    }

    /** What runs after both stops were tried: a service that its own stop, if it was reached, did not end, nor the
        system. */
    ghost function LeftRunning(w: World): set<bool>
      reads this, binding
    {
      var known := if binding == null then Disconnected else binding.serviceState;
      var connected := (if known == Waiting then w.hears else known) == Connected;
      (if connected && w.cleansUp && binding != null then running - {binding.vpn} else running) * w.stays
    }

    /** Stopping the bound service may fail; both services are asked to stop through the system all the same. */
    method TearDownServices(w: World)
      modifies this`binding, this`running, binding
      ensures binding == null && running == old(LeftRunning(w))
    {
      if binding != null {
        var connected := binding.AwaitService(w);
        if connected && w.cleansUp {
          running := running - {binding.vpn};
        }
      }
      ClearBinding();
      running := running * w.stays;
    }

    /** A start either leaves a run of the service asked for, or no run, no binding and closed listeners; then no
        service runs that did not before, unless one was reached, failed to start and could not be cleaned up. A run
        that goes on keeps the time it began. */
    method Start(enable: bool, w: World) returns (up: bool)
      requires Valid()
      modifies this, binding
      ensures Valid()
      ensures up ==> runtime.Some? && runtime.value.vpn == enable
      ensures var before := old(runtime);
              up ==>
                && runtime.value.startedAtMillis == (if before.Some? then before.value.startedAtMillis else w.now)
                && enable in running && (before.Some? && before.value.vpn != enable ==> running <= {enable} + w.stays)
      ensures !up ==> runtime.None? && binding == null
      ensures var known := if old(binding) == null then Waiting else old(binding.serviceState);
              var reached := Reachable(old(binding), known, enable, w);
              && (up <==> w.starts && reached)
              && (!up ==> running <= old(running) + (if reached && !w.cleansUp then {enable} else {}))
      ensures binding != old(binding) ==> binding == null || fresh(binding)
      ensures forall g: RunStateMachine.Shared :: g.runtime == old(Runtime()) ==>
        RunStateMachine.HostStarts(g, enable, Outcome(up)).runtime == Runtime()
    {
      if binding == null || binding.vpn != enable {
        if binding != null {
          TearDownServices(w);
        }
        binding := new ManagedServiceBinding(enable);
        var bound := binding.Bind(w);
        if !bound {
          Release();
          return false;
        }
      }
      var connected := binding.AwaitService(w);
      if connected {
        running := running + {enable};
      }
      if !connected || !w.starts {
        if connected && w.cleansUp {
          running := running - {enable};
        }
        Release();
        return false;
      }
      listening := true;
      runtime := Some(ServiceRuntime(enable, if runtime.Some? then runtime.value.startedAtMillis else w.now));
      up := true;
    }

    /** A stop ends the run, and leaves nothing running but what the system fails to stop, whichever service runs and
        whether or not one is bound. */
    method Stop(w: World)
      modifies this, binding
      ensures Valid() && runtime.None? && binding == null && running == old(LeftRunning(w))
      ensures w.stays == {} ==> running == {}
    {
      TearDownServices(w);
      Release();
    }

    /** A disconnection ends the run if it comes from the current binding; one from an earlier binding changes
        nothing. */
    method HandleServiceDisconnected(disconnected: ManagedServiceBinding) returns (wasCurrent: bool)
      requires Valid()
      modifies this, binding
      ensures Valid() && running == old(running)
      ensures wasCurrent <==> disconnected == old(binding)
      ensures wasCurrent ==> runtime.None? && binding == null
      ensures !wasCurrent ==> runtime == old(runtime) && binding == old(binding)
    {
      if binding != disconnected {
        return false;
      }
      Release();
      wasCurrent := true;
    }
  }
}
