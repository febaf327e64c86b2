/** Reachability probes: one ping session per direction, started and harvested from loop(). */
module Health {
  import opened Wrappers
  import opened Clock

  const ROUND_INTERVAL_MS: Word := 60000

  datatype Verdict = Unknown | Ok | Failed
  datatype Direction = Up | Down

  // Whether lwIP agrees to create the session and then to start it.
  datatype PingEnv = PingEnv(opens: bool, starts: bool)

  // lwIP's session table: handles are never reused.
  datatype Sessions = Sessions(created: nat, deleted: nat, live: set<nat>)

  datatype ProbeState = ProbeState(
    handle: Option<nat>, replies: Word, finished: bool, running: bool,
    result: Verdict, failStreak: Byte, everOk: bool)

  datatype HealthState = HealthState(up: ProbeState, down: ProbeState, lastRoundMs: Word, sessions: Sessions)
  {
    function Get(dir: Direction): ProbeState {
      if dir.Up? then up else down
    }
  }

  const IDLE_PROBE := ProbeState(None, 0, false, false, Unknown, 0, false)
  const INITIAL := HealthState(IDLE_PROBE, IDLE_PROBE, 0, Sessions(0, 0, {}))

  function Created(ss: Sessions): Sessions {
    Sessions(ss.created + 1, ss.deleted, ss.live + {ss.created})
  }

  function Deleted(ss: Sessions, handle: Option<nat>): Sessions {
    match handle
    case None => ss
    case Some(h) => Sessions(ss.created, ss.deleted + 1, ss.live - {h})
  }

  function Started(p: ProbeState, ss: Sessions, env: PingEnv): (r: (ProbeState, Sessions)) {
    if p.running then (p, ss)
    else
      var cleared := p.(replies := 0, finished := false);
      if !env.opens then (cleared.(handle := None), ss)
      else if !env.starts then (cleared.(handle := None), Deleted(Created(ss), Some(ss.created)))
      else (cleared.(handle := Some(ss.created), running := true), Created(ss))
  }

  // The verdict a harvest of this probe would deliver, if its session has ended.
  function Outcome(p: ProbeState): Option<Verdict> {
    if !p.running || !p.finished then None
    else Some(if p.replies > 0 then Ok else Failed)
  }

  function Harvested(p: ProbeState): ProbeState {
    match Outcome(p)
    case None => p
    case Some(v) =>
      p.(result := v,
         everOk := p.everOk || v.Ok?,
         failStreak := if v.Ok? then 0 else Min(p.failStreak + 1, 255),
         handle := None,
         running := false)
  }

  function HarvestedSessions(p: ProbeState, ss: Sessions): Sessions {
    if Outcome(p).None? then ss else Deleted(ss, p.handle)
  }

  function HarvestedBoth(h: HealthState): HealthState {
    HealthState(Harvested(h.up), Harvested(h.down), h.lastRoundMs,
                HarvestedSessions(h.down, HarvestedSessions(h.up, h.sessions)))
  }

  predicate RoundDue(lastRoundMs: Word, now: Word) {
    lastRoundMs == 0 || Sub32(now, lastRoundMs) >= ROUND_INTERVAL_MS
  }

  // Whether an update, once it has harvested, begins a new round.
  predicate StartsRound(k: HealthState, t: nat, uplinkReady: bool) {
    uplinkReady && RoundDue(k.lastRoundMs, Millis(t)) && !k.up.running && !k.down.running
  }

  function RoundStarted(h: HealthState, t: nat, gateway: Word, client: Word, upEnv: PingEnv, downEnv: PingEnv): HealthState {
    var (up, ss1) := if gateway != 0 then Started(h.up, h.sessions, upEnv) else (h.up, h.sessions);
    var (down, ss2) := if client != 0 then Started(h.down, ss1, downEnv) else (h.down, ss1);
    HealthState(up, down, Millis(t), ss2)
  }

  function Updated(h: HealthState, t: nat, uplinkReady: bool, gateway: Word, client: Word,
                   upEnv: PingEnv, downEnv: PingEnv): HealthState
  {
    var k := HarvestedBoth(h);
    if !uplinkReady then k.(up := k.up.(result := Unknown, failStreak := 0))
    else if !StartsRound(k, t, uplinkReady) then k
    else RoundStarted(k, t, gateway, client, upEnv, downEnv)
  }

  function StreaksReset(h: HealthState): HealthState {
    h.(up := h.up.(failStreak := 0), down := h.down.(failStreak := 0))
  }

  function Replied(h: HealthState, dir: Direction): HealthState {
    if dir.Up? then h.(up := h.up.(replies := Add32(h.up.replies, 1)))
    else h.(down := h.down.(replies := Add32(h.down.replies, 1)))
  }

  function Ended(h: HealthState, dir: Direction): HealthState {
    if dir.Up? then h.(up := h.up.(finished := true)) else h.(down := h.down.(finished := true))
  }

  // Every live session belongs to exactly one running probe, and the books balance.
  ghost predicate SessionsBalanced(h: HealthState) {
    && (h.up.running <==> h.up.handle.Some?)
    && (h.down.running <==> h.down.handle.Some?)
    && (h.up.running && h.down.running ==> h.up.handle != h.down.handle)
    && h.sessions.live == (if h.up.running then {h.up.handle.value} else {})
                          + (if h.down.running then {h.down.handle.value} else {})
    && (forall x | x in h.sessions.live :: x < h.sessions.created)
    && h.sessions.created == h.sessions.deleted + (if h.up.running then 1 else 0) + (if h.down.running then 1 else 0)
  }

  // ---- The running firmware ------------------------------------------------------

  /** lwIP's side of a session. Deleting a handle that is not live is the double free the
      firmware must avoid, so it is a precondition here. */
  class PingService {
    var created: nat
    var deleted: nat
    var live: set<nat>

    function State(): Sessions
      reads this
    {
      Sessions(created, deleted, live)
    }

    constructor ()
      ensures State() == Sessions(0, 0, {})
    {
      created, deleted, live := 0, 0, {};
    }

    method NewSession(ok: bool) returns (h: Option<nat>)
      modifies this
      ensures h == (if ok then Some(old(created)) else None)
      ensures State() == if ok then Created(old(State())) else old(State())
    {
      if !ok {
        return None;
      }
      h := Some(created);
      live := live + {created};
      created := created + 1;
    }

    method DeleteSession(h: nat)
      requires h in live
      modifies this
      ensures State() == Deleted(old(State()), Some(h))
    {
      live := live - {h};
      deleted := deleted + 1;
    }
  }

  class Probe {
    var handle: Option<nat>
    var replies: Word
    var finished: bool
    var running: bool
    var result: Verdict
    var failStreak: Byte
    var everOk: bool

    function State(): ProbeState
      reads this
    {
      ProbeState(handle, replies, finished, running, result, failStreak, everOk)
    }

    constructor ()
      ensures State() == IDLE_PROBE
    {
      handle, replies, finished, running, result, failStreak, everOk := None, 0, false, false, Unknown, 0, false;
    }

    method Start(pings: PingService, env: PingEnv)
      modifies this, pings
      ensures (State(), pings.State()) == Started(old(State()), old(pings.State()), env)
    {
      if running {
        return;
      }
      replies := 0;
      finished := false;
      handle := pings.NewSession(env.opens);
      if handle.None? {
        return;
      }
      if !env.starts {
        pings.DeleteSession(handle.value);
        handle := None;
        return;
      }
      running := true;
    }

    method Harvest(pings: PingService)
      requires running ==> handle.Some? && handle.value in pings.live
      modifies this, pings
      ensures State() == Harvested(old(State()))
      ensures pings.State() == HarvestedSessions(old(State()), old(pings.State()))
    {
      if !running || !finished {
        return;
      }
      var ok := replies > 0;
      result := if ok then Ok else Failed;
      if ok {
        everOk := true;
        failStreak := 0;
      } else if failStreak < 255 {
        failStreak := failStreak + 1;
      }
      pings.DeleteSession(handle.value);
      handle := None;
      running := false;
    }

    // Runs on lwIP's ping task, once per echo reply.
    method OnPingSuccess()
      modifies this
      ensures State() == old(State()).(replies := Add32(old(replies), 1))
    {
      replies := Add32(replies, 1);
    }

    // Runs on lwIP's ping task, once, when the session is over.
    method OnPingEnd()
      modifies this
      ensures State() == old(State()).(finished := true)
    {
      finished := true;
    }
  }

  class HealthService {
    const up: Probe
    const down: Probe
    const pings: PingService
    var lastRoundMs: Word

    ghost function Footprint(): set<object> {
      {this, up, down, pings}
    }

    function State(): HealthState
      reads this, up, down, pings
    {
      HealthState(up.State(), down.State(), lastRoundMs, pings.State())
    }

    ghost predicate Valid()
      reads this, up, down, pings
    {
      up != down && SessionsBalanced(State())
    }

    constructor Begin()
      ensures Valid() && fresh(Footprint()) && State() == INITIAL
    {
      up := new Probe();
      down := new Probe();
      pings := new PingService();
      lastRoundMs := 0;
    }

    method HarvestBoth()
      requires Valid()
      modifies up, down, pings
      ensures Valid()
      ensures State() == HarvestedBoth(old(State()))
    {
      HarvestKeepsBalance(State());
      up.Harvest(pings);
      down.Harvest(pings);
    }

    method StartRound(t: nat, gateway: Word, client: Word, upEnv: PingEnv, downEnv: PingEnv)
      requires Valid() && !up.running && !down.running
      modifies Footprint()
      ensures Valid()
      ensures State() == RoundStarted(old(State()), t, gateway, client, upEnv, downEnv)
    {
      RoundKeepsBalance(State(), t, gateway, client, upEnv, downEnv);
      lastRoundMs := Millis(t);
      if gateway != 0 {
        up.Start(pings, upEnv);
      }
      if client != 0 {
        down.Start(pings, downEnv);
      }
    }

    method Update(t: nat, uplinkReady: bool, gateway: Word, client: Word, upEnv: PingEnv, downEnv: PingEnv)
      requires Valid()
      modifies Footprint()
      ensures Valid()
      ensures State() == Updated(old(State()), t, uplinkReady, gateway, client, upEnv, downEnv)
    {
      HarvestBoth();
      if !uplinkReady {
        up.result := Unknown;
        up.failStreak := 0;
        return;
      }
      if lastRoundMs != 0 && Sub32(Millis(t), lastRoundMs) < ROUND_INTERVAL_MS {
        return;
      }
      if up.running || down.running {
        return;
      }
      StartRound(t, gateway, client, upEnv, downEnv);
    }

    method ResetStreaks()
      requires Valid()
      modifies up, down
      ensures Valid()
      ensures State() == StreaksReset(old(State()))
    {
      up.failStreak := 0;
      down.failStreak := 0;
    }

    method OnPingSuccess(dir: Direction)
      requires Valid()
      modifies up, down
      ensures Valid()
      ensures State() == Replied(old(State()), dir)
    {
      if dir.Up? {
        up.OnPingSuccess();
      } else {
        down.OnPingSuccess();
      }
    }

    method OnPingEnd(dir: Direction)
      requires Valid()
      modifies up, down
      ensures Valid()
      ensures State() == Ended(old(State()), dir)
    {
      if dir.Up? {
        up.OnPingEnd();
      } else {
        down.OnPingEnd();
      }
    }
  }

  lemma HarvestKeepsBalance(h: HealthState)
    requires SessionsBalanced(h)
    ensures SessionsBalanced(HarvestedBoth(h))
  {
  }

  lemma RoundKeepsBalance(h: HealthState, t: nat, gateway: Word, client: Word, upEnv: PingEnv, downEnv: PingEnv)
    requires SessionsBalanced(h) && !h.up.running && !h.down.running
    ensures SessionsBalanced(RoundStarted(h, t, gateway, client, upEnv, downEnv))
  {
  }

  /** One update keeps the session books balanced, whatever the callbacks and lwIP did: no session
      leaks, and none is deleted twice. */
  lemma UpdateKeepsBalance(h: HealthState, t: nat, uplinkReady: bool, gateway: Word, client: Word,
                           upEnv: PingEnv, downEnv: PingEnv)
    requires SessionsBalanced(h)
    ensures SessionsBalanced(Updated(h, t, uplinkReady, gateway, client, upEnv, downEnv))
  {
    HarvestKeepsBalance(h);
    if StartsRound(HarvestedBoth(h), t, uplinkReady) {
      RoundKeepsBalance(HarvestedBoth(h), t, gateway, client, upEnv, downEnv);
    }
  }

  /** What an update does to a direction's counters: exactly what harvesting it does, except that the
      upstream streak and result are dropped while the uplink is down. */
  lemma UpdateCounts(h: HealthState, t: nat, uplinkReady: bool, gateway: Word, client: Word,
                     upEnv: PingEnv, downEnv: PingEnv, dir: Direction)
    ensures var next := Updated(h, t, uplinkReady, gateway, client, upEnv, downEnv).Get(dir);
            && next.everOk == Harvested(h.Get(dir)).everOk
            && next.failStreak == (if dir.Up? && !uplinkReady then 0 else Harvested(h.Get(dir)).failStreak)
            && next.result == if dir.Up? && !uplinkReady then Unknown else Harvested(h.Get(dir)).result
  {
    var k := HarvestedBoth(h);
    assert k.Get(dir) == Harvested(h.Get(dir));
  }

  /** A probe running after an update either kept its session and its reply count, or has a new session
      and none. */
  lemma UpdateReplies(h: HealthState, t: nat, uplinkReady: bool, gateway: Word, client: Word,
                      upEnv: PingEnv, downEnv: PingEnv, dir: Direction)
    requires SessionsBalanced(h)
    ensures var p, next := h.Get(dir), Updated(h, t, uplinkReady, gateway, client, upEnv, downEnv).Get(dir);
            next.running ==>
              || (p.running && next.handle == p.handle && next.replies == p.replies)
              || (next.handle != p.handle && next.replies == 0)
  {
    var k := HarvestedBoth(h);
    assert k.sessions.created == h.sessions.created;
    assert k.Get(dir) == Harvested(h.Get(dir));
  }
}
