/** The NAPT switch: a cached flag in front of the SoftAP driver. */
module Napt {
  import opened Wrappers

  // `enabled` is the firmware's cached flag; `on` and `calls` are the driver's side of it. The driver
  // may refuse any call, to turn NAPT on or off; only the former's answer is looked at.
  datatype Switch = Switch(enabled: bool, on: bool, calls: nat)

  function Enabled(s: Switch, accepts: bool): Switch {
    if s.enabled then s else Switch(accepts, s.on || accepts, s.calls + 1)
  }

  function Disabled(s: Switch, accepts: bool): Switch {
    if !s.enabled then s else Switch(false, s.on && !accepts, s.calls + 1)
  }

  class NaptService {
    var enabled: bool
    var on: bool
    var calls: nat

    function State(): Switch
      reads this
    {
      Switch(enabled, on, calls)
    }

    constructor ()
      ensures State() == Switch(false, false, 0)
    {
      enabled, on, calls := false, false, 0;
    }

    // WiFi.AP.enableNAPT
    method Driver(turnOn: bool, accepts: bool) returns (ok: bool)
      modifies this`on, this`calls
      ensures ok == accepts
      ensures calls == old(calls) + 1 && on == if accepts then turnOn else old(on)
    {
      calls := calls + 1;
      ok := accepts;
      if ok {
        on := turnOn;
      }
    }

    method Enable(accepts: bool)
      modifies this
      ensures State() == Enabled(old(State()), accepts)
    {
      if enabled {
        return;
      }
      enabled := Driver(true, accepts);
    }

    method Disable(accepts: bool)
      modifies this
      ensures State() == Disabled(old(State()), accepts)
    {
      if !enabled {
        return;
      }
      var _ := Driver(false, accepts);
      enabled := false;
    }
  }
}
