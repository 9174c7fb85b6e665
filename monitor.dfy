/** The probing engine's target table, as the controller sees it through
    the go-ping monitor's AddTargetDelayed and RemoveTarget.  Packet
    probing, its timers and its statistics live behind this interface and
    are not modelled: only the set of target names the monitor holds. */
module ProbeMonitor {

  class Monitor {
    /** The names of the active probe targets. */
    var targets: set<string>

    constructor ()
      ensures targets == {}
    {
      targets := {};
    }

    /** Registers `name` to be probed at `addr` after `delayMs`
        milliseconds.  A name already registered is refused with an error
        and the table is left as it was. */
    method AddTargetDelayed(name: string, addr: string, delayMs: nat) returns (err: bool)
      modifies this
      ensures err <==> name in old(targets)
      ensures targets == old(targets) + {name}
    {
      err := name in targets;
      if !err {
        targets := targets + {name};
      }
    }

    /** Stops probing `name`; a name that is not registered is ignored. */
    method RemoveTarget(name: string)
      modifies this
      ensures targets == old(targets) - {name}
    {
      targets := targets - {name};
    }
  }
}
