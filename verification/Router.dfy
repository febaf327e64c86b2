/**
 The control machine of the router: Wi-Fi events, the segments of loop(), and the callbacks of the
 ping task, as steps over one state. `Next` specifies every step; class `Router` performs them
 in place and is proved against it.
 */
module RouterSpec {
  import opened Wrappers
  import opened Clock
  import Health
  import Napt
  import Watchdog

  const BACKOFF_INITIAL_MS: Word := 2000
  const BACKOFF_MAX_MS: Word := 15000
  const ATTEMPT_TIMEOUT_MS: Word := 20000
  const ATTEMPT_QUIET_MS: Word := 2000
  const LEASE_GRACE_MS: Word := 8000
  const FAIL_STREAK: Byte := 3
  const RADIO_POLL_MS: Word := 500

  // The uplink side. `begins` and `tearDowns` count the calls of uplink::begin() and
  // WiFi.disconnect() that the radio has seen.
  datatype Link = Link(
    backoffMs: Word, reconnectAtMs: Word, reconnectPending: bool, uplinkReady: bool,
    attemptActive: bool, attemptStartedMs: Word, attemptAssociated: bool, lastDisconnectMs: Word,
    begins: nat, tearDowns: nat)

  // The SoftAP side. `probeable` is loop()'s local clientProbeable; `samples` counts the readings of
  // the driver's counters, `deauths` the calls of esp_wifi_deauth_sta().
  datatype Clients = Clients(
    stations: Byte, channel: int, lastPollMs: Word, clientIp: Word, lastAssocMs: Word,
    leaseSeen: bool, probeable: bool, samples: nat, deauths: nat)

  datatype State = State(
    link: Link, clients: Clients, napt: Napt.Switch, health: Health.HealthState, dog: Watchdog.Words)

  datatype Event =
    | StaConnected
    | StaGotIp
    | StaDropped(accepts: bool) // STA_DISCONNECTED and STA_LOST_IP share one case; should NAPT be on, does
                                // the driver turn it off?
    | ApStaConnected
    | ApStaIpAssigned(ip: Word)
    | ApStaDisconnected(remaining: Byte)
    | OtherEvent

  datatype Step =
    | Radio(event: Event)
    | UpdateWatchdog
    | PollRadio(stations: Byte, channel: int)
    | ReconcileNapt(accepts: bool)
    | ProbeRound(gateway: Word, upEnv: Health.PingEnv, downEnv: Health.PingEnv)
    | RecoverUplink
    | RecoverClient
    | CheckDeadline
    | CheckReconnect
    | PingSuccess(dir: Health.Direction)
    | PingEnd(dir: Health.Direction)
    | SupervisorPoll(sampledAt: nat)   // by the supervisor's own task, which writes nothing

  predicate Drops(e: Step) {
    e.Radio? && e.event.StaDropped?
  }

  function AttemptStarted(l: Link, t: nat): Link {
    l.(attemptActive := true, attemptStartedMs := Millis(t), attemptAssociated := false,
       lastDisconnectMs := 0, begins := l.begins + 1)
  }

  function ReconnectScheduled(l: Link, t: nat): Link {
    l.(reconnectAtMs := Add32(Millis(t), l.backoffMs), reconnectPending := true,
       backoffMs := Min(l.backoffMs * 2 % WRAP, BACKOFF_MAX_MS))
  }

  function UplinkLost(l: Link, t: nat): Link {
    var down := l.(uplinkReady := false, attemptAssociated := false, lastDisconnectMs := Millis(t));
    if l.attemptActive then down else ReconnectScheduled(down, t)
  }

  function Addressed(l: Link): Link {
    l.(uplinkReady := true, backoffMs := BACKOFF_INITIAL_MS, reconnectPending := false, attemptActive := false)
  }

  function GivenUp(l: Link, t: nat): Link {
    ReconnectScheduled(l.(uplinkReady := false, attemptActive := false, tearDowns := l.tearDowns + 1), t)
  }

  function AfterEvent(s: State, t: nat, e: Event): State {
    match e
    case StaConnected => s.(link := s.link.(attemptAssociated := true))
    case StaGotIp => s.(link := Addressed(s.link))
    case StaDropped(accepts) => s.(link := UplinkLost(s.link, t), napt := Napt.Disabled(s.napt, accepts))
    case ApStaConnected => s.(clients := s.clients.(lastAssocMs := Millis(t), leaseSeen := false))
    case ApStaIpAssigned(ip) => s.(clients := s.clients.(clientIp := ip, leaseSeen := true))
    case ApStaDisconnected(remaining) =>
      if remaining == 0 then s.(clients := s.clients.(leaseSeen := false, lastAssocMs := 0, clientIp := 0)) else s
    case OtherEvent => s
  }

  function RadioPolled(c: Clients, t: nat, stations: Byte, channel: int): Clients {
    if c.lastPollMs != 0 && Sub32(Millis(t), c.lastPollMs) < RADIO_POLL_MS then c
    else c.(lastPollMs := Millis(t), stations := stations, channel := channel, samples := c.samples + 1)
  }

  predicate LeaseSettled(c: Clients, t: nat) {
    c.leaseSeen || (c.lastAssocMs != 0 && Sub32(Millis(t), c.lastAssocMs) >= LEASE_GRACE_MS)
  }

  predicate WantsNapt(s: State, t: nat) {
    s.link.uplinkReady && s.clients.stations > 0 && LeaseSettled(s.clients, t)
  }

  function NaptReconciled(s: State, t: nat, accepts: bool): Napt.Switch {
    if WantsNapt(s, t) then Napt.Enabled(s.napt, accepts) else Napt.Disabled(s.napt, accepts)
  }

  function Probed(s: State, t: nat, gateway: Word, upEnv: Health.PingEnv, downEnv: Health.PingEnv): State {
    var probeable := s.clients.stations > 0 && s.clients.leaseSeen;
    s.(clients := s.clients.(probeable := probeable),
       health := Health.Updated(s.health, t, s.link.uplinkReady, gateway,
                                if probeable then s.clients.clientIp else 0, upEnv, downEnv))
  }

  predicate UplinkUnreachable(s: State) {
    s.link.uplinkReady && s.health.up.everOk && s.health.up.failStreak >= FAIL_STREAK
  }

  predicate ClientUnreachable(s: State) {
    s.clients.probeable && s.health.down.everOk && s.health.down.failStreak >= FAIL_STREAK
  }

  function UplinkRecovered(s: State, t: nat): State {
    if !UplinkUnreachable(s) then s
    else s.(health := Health.StreaksReset(s.health), link := GivenUp(s.link, t))
  }

  function ClientRecovered(s: State): State {
    if !ClientUnreachable(s) then s
    else s.(health := Health.StreaksReset(s.health), clients := s.clients.(deauths := s.clients.deauths + 1))
  }

  predicate AttemptOver(l: Link, t: nat) {
    || Sub32(Millis(t), l.attemptStartedMs) >= ATTEMPT_TIMEOUT_MS
    || (!l.attemptAssociated && l.lastDisconnectMs != 0 && Sub32(Millis(t), l.lastDisconnectMs) >= ATTEMPT_QUIET_MS)
  }

  function DeadlineChecked(l: Link, t: nat): Link {
    if l.attemptActive && AttemptOver(l, t) then ReconnectScheduled(l.(attemptActive := false), t) else l
  }

  function ReconnectChecked(l: Link, t: nat): Link {
    if l.reconnectPending && Millis(t) >= l.reconnectAtMs then AttemptStarted(l.(reconnectPending := false), t) else l
  }

  /** The whole state after one step taken at true time t. */
  function Next(s: State, t: nat, e: Step): State {
    match e
    case Radio(event) => AfterEvent(s, t, event)
    case UpdateWatchdog => s.(dog := Watchdog.Updated(s.dog, t, s.link.uplinkReady))
    case PollRadio(stations, channel) => s.(clients := RadioPolled(s.clients, t, stations, channel))
    case ReconcileNapt(accepts) => s.(napt := NaptReconciled(s, t, accepts))
    case ProbeRound(gateway, upEnv, downEnv) => Probed(s, t, gateway, upEnv, downEnv)
    case RecoverUplink => UplinkRecovered(s, t)
    case RecoverClient => ClientRecovered(s)
    case CheckDeadline => s.(link := DeadlineChecked(s.link, t))
    case CheckReconnect => s.(link := ReconnectChecked(s.link, t))
    case PingSuccess(dir) => s.(health := Health.Replied(s.health, dir))
    case PingEnd(dir) => s.(health := Health.Ended(s.health, dir))
    case SupervisorPoll(_) => s
  }

  // When setup() starts the supervisor and then the first connection attempt.
  datatype Boot = Boot(dogAt: nat, attemptAt: nat)

  const LINK_RESET := Link(BACKOFF_INITIAL_MS, 0, false, false, false, 0, false, 0, 0, 0)
  const CLIENTS_RESET := Clients(0, 0, 0, 0, 0, false, false, 0, 0)

  function Booted(b: Boot): State {
    State(AttemptStarted(LINK_RESET, b.attemptAt), CLIENTS_RESET, Napt.Switch(false, false, 0),
          Health.INITIAL, Watchdog.Begun(b.dogAt, true))
  }

  // What the drivers answer during one iteration of loop().
  datatype LoopEnv = LoopEnv(
    at: nat, stations: Byte, channel: int, accepts: bool, gateway: Word,
    upEnv: Health.PingEnv, downEnv: Health.PingEnv)

  // One iteration of loop() with nothing in between its segments.
  function LoopSteps(env: LoopEnv): seq<Step> {
    SenseSteps(env) + ACT_STEPS
  }

  function SenseSteps(env: LoopEnv): seq<Step> {
    [UpdateWatchdog, PollRadio(env.stations, env.channel), ReconcileNapt(env.accepts),
     ProbeRound(env.gateway, env.upEnv, env.downEnv)]
  }

  const ACT_STEPS: seq<Step> := [RecoverUplink, RecoverClient, CheckDeadline, CheckReconnect]

  lemma {:induction false} IteratedConcat(s: State, t: nat, a: seq<Step>, b: seq<Step>)
    ensures Iterated(s, t, a + b) == Iterated(Iterated(s, t, a), t, b)
    decreases |a|
  {
    if a == [] {
      assert a + b == b;
    } else {
      IteratedConcat(Next(s, t, a[0]), t, a[1..], b);
      assert (a + b)[1..] == a[1..] + b;
    }
  }

  function Iterated(s: State, t: nat, steps: seq<Step>): State
    decreases |steps|
  {
    if steps == [] then s else Iterated(Next(s, t, steps[0]), t, steps[1..])
  }
}

module Router {
  import opened Wrappers
  import opened Clock
  import opened RouterSpec
  import Health
  import Napt
  import Watchdog

  class Router {
    var backoffMs: Word
    var reconnectAtMs: Word
    var reconnectPending: bool
    var uplinkReady: bool
    var attemptActive: bool
    var attemptStartedMs: Word
    var attemptAssociated: bool
    var lastDisconnectMs: Word
    var begins: nat
    var tearDowns: nat

    var radioStations: Byte
    var radioChannel: int
    var lastRadioPollMs: Word
    var clientIp: Word
    var lastApAssocMs: Word
    var leaseSeen: bool
    var clientProbeable: bool
    var samples: nat
    var deauths: nat

    const napt: Napt.NaptService
    const health: Health.HealthService
    const dog: Watchdog.Supervisor

    ghost function Footprint(): set<object> {
      {this, napt, dog} + health.Footprint()
    }

    ghost predicate Valid()
      reads Footprint()
    {
      health.Valid()
    }

    function LinkState(): Link
      reads this
    {
      Link(backoffMs, reconnectAtMs, reconnectPending, uplinkReady, attemptActive, attemptStartedMs,
           attemptAssociated, lastDisconnectMs, begins, tearDowns)
    }

    function ClientsState(): Clients
      reads this
    {
      Clients(radioStations, radioChannel, lastRadioPollMs, clientIp, lastApAssocMs, leaseSeen, clientProbeable,
              samples, deauths)
    }

    function State(): State
      reads this, napt, dog, health, health.up, health.down, health.pings
    {
      RouterSpec.State(LinkState(), ClientsState(), napt.State(), health.State(), dog.State())
    }

    // A change of the router's own fields leaves the rest of the state alone.
    twostate lemma OwnFields()
      requires old(Valid()) && unchanged(napt, dog, health, health.up, health.down, health.pings)
      ensures Valid()
      ensures State() == old(State()).(link := LinkState(), clients := ClientsState())
    {
    }

    constructor Setup(b: Boot)
      ensures Valid() && fresh(Footprint())
      ensures State() == Booted(b)
    {
      backoffMs, reconnectAtMs, reconnectPending, uplinkReady := BACKOFF_INITIAL_MS, 0, false, false;
      attemptActive, attemptStartedMs, attemptAssociated, lastDisconnectMs := false, 0, false, 0;
      begins, tearDowns := 0, 0;
      radioStations, radioChannel, lastRadioPollMs := 0, 0, 0;
      clientIp, lastApAssocMs, leaseSeen, clientProbeable, samples, deauths := 0, 0, false, false, 0, 0;
      napt := new Napt.NaptService();
      dog := new Watchdog.Supervisor.Begin(b.dogAt, true);
      health := new Health.HealthService.Begin();
      new;
      StartAttempt(b.attemptAt);
    }

    method StartAttempt(t: nat)
      modifies this
      ensures LinkState() == AttemptStarted(old(LinkState()), t)
      ensures ClientsState() == old(ClientsState())
    {
      attemptActive := true;
      attemptStartedMs := Millis(t);
      attemptAssociated := false;
      lastDisconnectMs := 0;
      begins := begins + 1;
    }

    method ScheduleReconnect(t: nat)
      modifies this
      ensures LinkState() == ReconnectScheduled(old(LinkState()), t)
      ensures ClientsState() == old(ClientsState())
    {
      reconnectAtMs := Add32(Millis(t), backoffMs);
      reconnectPending := true;
      backoffMs := Min(backoffMs * 2 % WRAP, BACKOFF_MAX_MS);
    }

    // The STA_DISCONNECTED and STA_LOST_IP case.
    method OnUplinkLost(t: nat, accepts: bool)
      requires Valid()
      modifies this, napt
      ensures Valid()
      ensures State() == AfterEvent(old(State()), t, StaDropped(accepts))
    {
      uplinkReady := false;
      if napt.enabled {
        napt.Disable(accepts);
      }
      attemptAssociated := false;
      lastDisconnectMs := Millis(t);
      if !attemptActive {
        ScheduleReconnect(t);
      }
    }

    // The cases that concern the SoftAP's clients.
    method OnApEvent(t: nat, event: Event)
      requires event.ApStaConnected? || event.ApStaIpAssigned? || event.ApStaDisconnected? || event.OtherEvent?
      requires Valid()
      modifies this
      ensures Valid()
      ensures State() == AfterEvent(old(State()), t, event)
    {
      match event
      case ApStaConnected =>
        lastApAssocMs := Millis(t);
        leaseSeen := false;
      case ApStaIpAssigned(ip) =>
        clientIp := ip;
        leaseSeen := true;
      case ApStaDisconnected(remaining) =>
        if remaining == 0 {
          leaseSeen := false;
          lastApAssocMs := 0;
          clientIp := 0;
        }
      case _ =>
    }

    // The cases that concern the uplink.
    method OnStaEvent(t: nat, event: Event)
      requires event.StaConnected? || event.StaGotIp? || event.StaDropped?
      requires Valid()
      modifies this, napt
      ensures Valid()
      ensures State() == AfterEvent(old(State()), t, event)
    {
      match event
      case StaConnected =>
        attemptAssociated := true;
        OwnFields();
      case StaGotIp =>
        OnAddress();
        OwnFields();
      case StaDropped(accepts) =>
        OnUplinkLost(t, accepts);
    }

    method OnAddress()
      modifies this
      ensures LinkState() == Addressed(old(LinkState()))
      ensures ClientsState() == old(ClientsState())
    {
      uplinkReady := true;
      backoffMs := BACKOFF_INITIAL_MS;
      reconnectPending := false;
      attemptActive := false;
    }

    method OnWiFiEvent(t: nat, event: Event)
      requires Valid()
      modifies this, napt
      ensures Valid()
      ensures State() == AfterEvent(old(State()), t, event)
    {
      if event.StaConnected? || event.StaGotIp? || event.StaDropped? {
        OnStaEvent(t, event);
      } else {
        OnApEvent(t, event);
      }
    }

    method PollRadioStep(t: nat, stations: Byte, channel: int)
      requires Valid()
      modifies this
      ensures Valid()
      ensures State() == Next(old(State()), t, PollRadio(stations, channel))
    {
      SampleRadio(t, stations, channel);
      OwnFields();
    }

    method SampleRadio(t: nat, stations: Byte, channel: int)
      modifies this
      ensures ClientsState() == RadioPolled(old(ClientsState()), t, stations, channel)
      ensures LinkState() == old(LinkState())
    {
      if lastRadioPollMs != 0 && Sub32(Millis(t), lastRadioPollMs) < RADIO_POLL_MS {
        return;
      }
      lastRadioPollMs := Millis(t);
      radioStations := stations;
      radioChannel := channel;
      samples := samples + 1;
    }

    method ReconcileNaptStep(t: nat, accepts: bool)
      requires Valid()
      modifies napt
      ensures Valid()
      ensures State() == Next(old(State()), t, ReconcileNapt(accepts))
    {
      var haveClient := radioStations > 0;
      var leaseSettled := leaseSeen || (lastApAssocMs != 0 && Sub32(Millis(t), lastApAssocMs) >= LEASE_GRACE_MS);
      var want := uplinkReady && haveClient && leaseSettled;
      if want == napt.enabled {
        return;
      }
      if want {
        napt.Enable(accepts);
      } else {
        napt.Disable(accepts);
      }
    }

    method ProbeRoundStep(t: nat, gateway: Word, upEnv: Health.PingEnv, downEnv: Health.PingEnv)
      requires Valid()
      modifies this, health.Footprint()
      ensures Valid()
      ensures State() == Next(old(State()), t, ProbeRound(gateway, upEnv, downEnv))
    {
      MarkProbeable();
      OwnFields();
      health.Update(t, uplinkReady, gateway, if clientProbeable then clientIp else 0, upEnv, downEnv);
    }

    method MarkProbeable()
      modifies this
      ensures LinkState() == old(LinkState())
      ensures ClientsState() == old(ClientsState()).(probeable := old(radioStations) > 0 && old(leaseSeen))
    {
      clientProbeable := radioStations > 0 && leaseSeen;
    }

    method RecoverUplinkStep(t: nat)
      requires Valid()
      modifies this, health.Footprint()
      ensures Valid()
      ensures State() == Next(old(State()), t, RecoverUplink)
    {
      if uplinkReady && health.up.everOk && health.up.failStreak >= FAIL_STREAK {
        health.ResetStreaks();
        GiveUpLink(t);
      }
    }

    method GiveUpLink(t: nat)
      modifies this
      ensures LinkState() == GivenUp(old(LinkState()), t)
      ensures ClientsState() == old(ClientsState())
    {
      uplinkReady := false;
      attemptActive := false;
      tearDowns := tearDowns + 1;
      ScheduleReconnect(t);
    }

    method RecoverClientStep(t: nat)
      requires Valid()
      modifies this, health.Footprint()
      ensures Valid()
      ensures State() == Next(old(State()), t, RecoverClient)
    {
      if clientProbeable && health.down.everOk && health.down.failStreak >= FAIL_STREAK {
        health.ResetStreaks();
        deauths := deauths + 1;
      }
    }

    method CheckDeadlineStep(t: nat)
      requires Valid()
      modifies this
      ensures Valid()
      ensures State() == Next(old(State()), t, CheckDeadline)
    {
      if attemptActive {
        var hardTimeout := Sub32(Millis(t), attemptStartedMs) >= ATTEMPT_TIMEOUT_MS;
        var gaveUp := !attemptAssociated && lastDisconnectMs != 0 && Sub32(Millis(t), lastDisconnectMs) >= ATTEMPT_QUIET_MS;
        if hardTimeout || gaveUp {
          attemptActive := false;
          ScheduleReconnect(t);
        }
      }
    }

    method CheckReconnectStep(t: nat)
      requires Valid()
      modifies this
      ensures Valid()
      ensures State() == Next(old(State()), t, CheckReconnect)
    {
      if reconnectPending && Millis(t) >= reconnectAtMs {
        reconnectPending := false;
        StartAttempt(t);
      }
    }

    // The first half of an iteration of loop(): sample the radio, settle NAPT, probe.
    method LoopSense(env: LoopEnv)
      requires Valid()
      modifies Footprint()
      ensures Valid()
      ensures State() == Iterated(old(State()), env.at, SenseSteps(env))
    {
      ghost var s0 := State();
      dog.Update(env.at, uplinkReady);
      ghost var s1 := State();
      PollRadioStep(env.at, env.stations, env.channel);
      ghost var s2 := State();
      ReconcileNaptStep(env.at, env.accepts);
      ghost var s3 := State();
      ProbeRoundStep(env.at, env.gateway, env.upEnv, env.downEnv);
      FourSteps(s0, s1, s2, s3, State(), env.at, SenseSteps(env));
    }

    // The second half: recover, give up, retry.
    method LoopAct(t: nat)
      requires Valid()
      modifies Footprint()
      ensures Valid()
      ensures State() == Iterated(old(State()), t, ACT_STEPS)
    {
      ghost var s0 := State();
      RecoverUplinkStep(t);
      ghost var s1 := State();
      RecoverClientStep(t);
      ghost var s2 := State();
      CheckDeadlineStep(t);
      ghost var s3 := State();
      CheckReconnectStep(t);
      FourSteps(s0, s1, s2, s3, State(), t, ACT_STEPS);
    }

    /** One iteration of loop(): its segments in source order, each against the whole state. */
    method Loop(env: LoopEnv)
      requires Valid()
      modifies Footprint()
      ensures Valid()
      ensures State() == Iterated(old(State()), env.at, LoopSteps(env))
    {
      IteratedConcat(State(), env.at, SenseSteps(env), ACT_STEPS);
      LoopSense(env);
      LoopAct(env.at);
    }
  }

  lemma FourSteps(s0: State, s1: State, s2: State, s3: State, s4: State, t: nat, steps: seq<Step>)
    requires |steps| == 4
    requires s1 == Next(s0, t, steps[0]) && s2 == Next(s1, t, steps[1])
    requires s3 == Next(s2, t, steps[2]) && s4 == Next(s3, t, steps[3])
    ensures Iterated(s0, t, steps) == s4
  {
    assert Iterated(s4, t, steps[1..][1..][1..][1..]) == s4;
    assert Iterated(s3, t, steps[1..][1..][1..]) == s4;
    assert Iterated(s2, t, steps[1..][1..]) == s4;
  }
}
