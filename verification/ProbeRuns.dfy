/**
 What a probe round does, exactly: when one begins, whom it probes, what it reports and what follows.
 Stated over runs in terms of events, readings and callbacks.
 */
module ProbeRuns {
  import opened Wrappers
  import opened Clock
  import opened RouterSpec
  import opened RouterRuns
  import opened Health
  import opened HealthRuns
  import opened NaptRuns

  // ---- Sessions that have ended ----------------------------------------------------

  // The end callback has come since the direction's latest session was started.
  function EndedThisRound(b: Boot, ticks: seq<Tick>, dir: Direction): bool
    decreases |ticks|
  {
    if ticks == [] then false
    else if RoundStarts(Run(b, Front(ticks)), Run(b, ticks), dir) then false
    else EndedThisRound(b, Front(ticks), dir) || Last(ticks).step == PingEnd(dir)
  }

  lemma EndedUpdate(h: HealthState, t: nat, ready: bool, gateway: Word, client: Word, upEnv: PingEnv, downEnv: PingEnv,
                    dir: Direction)
    requires SessionsBalanced(h)
    ensures var p, next := h.Get(dir), Updated(h, t, ready, gateway, client, upEnv, downEnv).Get(dir);
            next.running ==>
              if next.handle != p.handle then !next.finished else p.running && next.finished == p.finished
  {
    assert HarvestedBoth(h).Get(dir) == Harvested(h.Get(dir));
    assert HarvestedBoth(h).sessions.created == h.sessions.created;
  }

  lemma EndedStep(s: State, t: nat, e: Step, dir: Direction, ended: bool)
    requires SessionsBalanced(s.health)
    requires s.health.Get(dir).running ==> s.health.Get(dir).finished == ended
    ensures var next := Next(s, t, e);
            next.health.Get(dir).running ==>
              next.health.Get(dir).finished == (if RoundStarts(s, next, dir) then false else ended || e == PingEnd(dir))
  {
    if e.ProbeRound? {
      EndedUpdate(s.health, t, s.link.uplinkReady, e.gateway, ProbedClient(s), e.upEnv, e.downEnv, dir);
    } else {
      HealthRuns.QuietStep(s, t, e, dir);
      QuietFinished(s, t, e, dir);
    }
  }

  lemma QuietFinished(s: State, t: nat, e: Step, dir: Direction)
    requires !e.ProbeRound?
    ensures Next(s, t, e).health.Get(dir).finished == (s.health.Get(dir).finished || e == PingEnd(dir))
  {
  }

  lemma {:induction false} EndedExact(b: Boot, ticks: seq<Tick>, dir: Direction)
    ensures Run(b, ticks).health.Get(dir).running ==>
              Run(b, ticks).health.Get(dir).finished == EndedThisRound(b, ticks, dir)
    decreases |ticks|
  {
    if ticks != [] {
      EndedExact(b, Front(ticks), dir);
      SessionsStayBalanced(b, Front(ticks));
      EndedStep(Run(b, Front(ticks)), Last(ticks).at, Last(ticks).step, dir, EndedThisRound(b, Front(ticks), dir));
    }
  }

  // A session of the direction is in flight: begun, and its end not yet called back.
  predicate InFlight(b: Boot, ticks: seq<Tick>, dir: Direction) {
    Run(b, ticks).health.Get(dir).running && !EndedThisRound(b, ticks, dir)
  }

  // ---- Rounds -------------------------------------------------------------------

  // The address that a direction is probed at.
  function Target(s: State, e: Step, dir: Direction): Word
    requires e.ProbeRound?
  {
    if dir.Up? then e.gateway
    else if s.clients.stations > 0 && s.clients.leaseSeen then s.clients.clientIp
    else 0
  }

  // lwIP agrees to open and to start its session.
  predicate Granted(e: Step, dir: Direction)
    requires e.ProbeRound?
  {
    if dir.Up? then e.upEnv.opens && e.upEnv.starts else e.downEnv.opens && e.downEnv.starts
  }

  predicate Unfinished(p: ProbeState) {
    p.running && !p.finished
  }

  lemma RoundStep(s: State, t: nat, e: Step)
    requires e.ProbeRound?
    ensures BeginsRound(s, t, e)
            <==> && s.link.uplinkReady && !Unfinished(s.health.up) && !Unfinished(s.health.down)
                 && (s.health.lastRoundMs == 0 || Sub32(Millis(t), s.health.lastRoundMs) >= 60000)
  {
  }

  // What a round does for one direction.
  lemma BegunStep(s: State, t: nat, e: Step, dir: Direction)
    requires e.ProbeRound? && SessionsBalanced(s.health) && BeginsRound(s, t, e)
    ensures var q := Next(s, t, e).health.Get(dir);
            && (q.running <==> Target(s, e, dir) != 0 && Granted(e, dir))
            && (q.running ==> q.handle.Some? && q.handle.value >= s.health.sessions.created)
  {
    var k := HarvestedBoth(s.health);
    assert !k.up.running && !k.down.running && k.sessions.created == s.health.sessions.created;
  }

  // And an iteration that begins none.
  lemma UnbegunStep(s: State, t: nat, e: Step, dir: Direction)
    requires e.ProbeRound? && !BeginsRound(s, t, e)
    ensures var p, q := s.health.Get(dir), Next(s, t, e).health.Get(dir);
            && (q.running <==> Unfinished(p))
            && (q.running ==> q.handle == p.handle)
  {
    assert HarvestedBoth(s.health).Get(dir) == Harvested(s.health.Get(dir));
  }

  // The last session of a direction was given this number or a lower one before tick i.
  predicate FreshSession(b: Boot, ticks: seq<Tick>, i: nat, dir: Direction)
    requires i < |ticks|
  {
    var q := Before(b, ticks, i + 1).health.Get(dir);
    q.handle.Some? && q.handle.value >= Before(b, ticks, i).health.sessions.created
  }

  /** When a round begins: at a probe step with the uplink up and no session in flight, a minute by the clock
      after the latest round, or after one that began at a zero reading, or first of all. */
  lemma RoundExact(b: Boot, ticks: seq<Tick>, i: nat)
    requires Timed(b, ticks) && i < |ticks| && ticks[i].step.ProbeRound?
    ensures BeginsRound(Before(b, ticks, i), ticks[i].at, ticks[i].step)
            <==> && Before(b, ticks, i).link.uplinkReady
                 && !InFlight(b, ticks[..i], Up) && !InFlight(b, ticks[..i], Down)
                 && (var last := LastRound(b, ticks[..i]); Millis(last) == 0 || (ticks[i].at - last) % WRAP >= 60000)
  {
    RoundStep(Before(b, ticks, i), ticks[i].at, ticks[i].step);
    EndedExact(b, ticks[..i], Up);
    EndedExact(b, ticks[..i], Down);
    RoundStamp(b, ticks[..i]);
    if i > 0 {
      assert Last(ticks[..i]) == ticks[i - 1];
    }
    Elapsed(LastRound(b, ticks[..i]), ticks[i].at);
  }

  /** A round probes the gateway whenever there is one and lwIP grants the session, which is new. */
  lemma GatewayProbedExact(b: Boot, ticks: seq<Tick>, i: nat)
    requires i < |ticks| && BeginsRound(Before(b, ticks, i), ticks[i].at, ticks[i].step)
    ensures var e := ticks[i].step;
            Before(b, ticks, i + 1).health.up.running <==> e.gateway != 0 && e.upEnv.opens && e.upEnv.starts
    ensures Before(b, ticks, i + 1).health.up.running ==> FreshSession(b, ticks, i, Up)
  {
    StepAt(b, ticks, i);
    SessionsStayBalanced(b, ticks[..i]);
    BegunStep(Before(b, ticks, i), ticks[i].at, ticks[i].step, Up);
  }

  // The latest lease event is at index j, no client has associated since, and not all have left; it
  // handed out a real address.
  ghost predicate LeasedAddress(ticks: seq<Tick>, j: nat) {
    LeasedAt(ticks, j) && LatestLease(ticks, j, ticks[j].step.event.ip) && ticks[j].step.event.ip != 0
  }

  /** And the client whenever the driver's latest reading found a station, a lease has been issued since the
      latest association, at a real address, and lwIP grants the session; gateway or no gateway. */
  lemma ClientProbedExact(b: Boot, ticks: seq<Tick>, i: nat)
    requires i < |ticks| && BeginsRound(Before(b, ticks, i), ticks[i].at, ticks[i].step)
    ensures Before(b, ticks, i + 1).health.down.running
            <==> && (exists k: nat :: StationRead(b, ticks[..i], k))
                 && (exists j: nat :: LeasedAddress(ticks[..i], j))
                 && ticks[i].step.downEnv.opens && ticks[i].step.downEnv.starts
    ensures Before(b, ticks, i + 1).health.down.running ==> FreshSession(b, ticks, i, Down)
  {
    var front := ticks[..i];
    StepAt(b, ticks, i);
    SessionsStayBalanced(b, front);
    BegunStep(Before(b, ticks, i), ticks[i].at, ticks[i].step, Down);
    StationsExact(b, front);
    ClientsTracked(b, front);
    LeasedExact(b, front);
  }

  lemma LeasedExact(b: Boot, ticks: seq<Tick>)
    ensures Run(b, ticks).clients.leaseSeen && Run(b, ticks).clients.clientIp != 0
            <==> exists j: nat :: LeasedAddress(ticks, j)
  {
    ClientsTracked(b, ticks);
    if Run(b, ticks).clients.leaseSeen {
      ClientAddress(b, ticks);
      var i: nat :| LatestLease(ticks, i, Run(b, ticks).clients.clientIp);
      if Run(b, ticks).clients.clientIp != 0 {
        assert LeasedAddress(ticks, i);
      }
      forall j: nat | LeasedAddress(ticks, j)
        ensures j == i
      {
        assert Leases(ticks[i].step) && Leases(ticks[j].step);
      }
    } else {
      assert forall j: nat | LeasedAddress(ticks, j) :: LeasedAt(ticks, j);
    }
  }

  /** Between rounds, sessions go on until their end is called back, and are then gone. */
  lemma UnbegunExact(b: Boot, ticks: seq<Tick>, i: nat, dir: Direction)
    requires i < |ticks| && ticks[i].step.ProbeRound?
    requires !BeginsRound(Before(b, ticks, i), ticks[i].at, ticks[i].step)
    ensures Before(b, ticks, i + 1).health.Get(dir).running <==> InFlight(b, ticks[..i], dir)
    ensures Before(b, ticks, i + 1).health.Get(dir).running ==>
              Before(b, ticks, i + 1).health.Get(dir).handle == Before(b, ticks, i).health.Get(dir).handle
  {
    StepAt(b, ticks, i);
    UnbegunStep(Before(b, ticks, i), ticks[i].at, ticks[i].step, dir);
    EndedExact(b, ticks[..i], dir);
  }

  // ---- Reports ------------------------------------------------------------------

  /** What a probe step adds to the record of a direction: a verdict exactly if its session has ended,
      passed exactly if a reply came in that round; and upstream, that the uplink was down. */
  lemma RecordExact(b: Boot, ticks: seq<Tick>, i: nat, dir: Direction)
    requires i < |ticks| && ticks[i].step.ProbeRound? && RepliesThisRound(b, ticks[..i], dir) < WRAP
    ensures Record(b, ticks[..i + 1], dir)
            == Record(b, ticks[..i], dir)
               + (if Before(b, ticks, i).health.Get(dir).running && EndedThisRound(b, ticks[..i], dir)
                  then [if RepliesThisRound(b, ticks[..i], dir) > 0 then Passed else Missed] else [])
               + (if dir.Up? && !Before(b, ticks, i).link.uplinkReady then [Unready] else [])
  {
    var front := ticks[..i];
    StepAt(b, ticks, i);
    EndedExact(b, front, dir);
    RepliesCounted(b, front, dir);
    BeforeWrap(RepliesThisRound(b, front, dir));
    var verdict := VerdictMarks(Run(b, front).health.Get(dir));
    var unready := if dir.Up? && !Run(b, front).link.uplinkReady then [Unready] else [];
    assert Record(b, front, dir) + (verdict + unready) == Record(b, front, dir) + verdict + unready;
  }

  /** And any other step: a clearing exactly if it recovers one direction or the other. */
  lemma ClearedExact(b: Boot, ticks: seq<Tick>, i: nat, dir: Direction)
    requires i < |ticks| && !ticks[i].step.ProbeRound?
    ensures Record(b, ticks[..i + 1], dir)
            == Record(b, ticks[..i], dir)
               + (if RecoversAt(b, ticks, i, Up) || RecoversAt(b, ticks, i, Down) then [Cleared] else [])
  {
    StepAt(b, ticks, i);
  }

  // ---- Recoveries -----------------------------------------------------------------

  // The latest probe step is at index k.
  predicate LatestProbe(ticks: seq<Tick>, k: nat) {
    k < |ticks| && ticks[k].step.ProbeRound? && forall j | k < j < |ticks| :: !ticks[j].step.ProbeRound?
  }

  lemma ProbeableStep(s: State, t: nat, e: Step)
    ensures Next(s, t, e).clients.probeable
            == if e.ProbeRound? then s.clients.stations > 0 && s.clients.leaseSeen else s.clients.probeable
  {
  }

  /** A client counts as probeable if and only if the latest probe step found a station read and a lease seen. */
  lemma {:induction false} ProbeableExact(b: Boot, ticks: seq<Tick>)
    ensures Run(b, ticks).clients.probeable <==> exists k: nat :: ProbeableAt(b, ticks, k)
    decreases |ticks|
  {
    if ticks != [] {
      var n, front := |ticks| - 1, Front(ticks);
      ProbeableStep(Run(b, front), Last(ticks).at, Last(ticks).step);
      assert ticks[..n] == front && ticks[n] == Last(ticks);
      if Last(ticks).step.ProbeRound? {
        StationsExact(b, front);
        ClientsTracked(b, front);
        assert Run(b, ticks).clients.probeable <==> ProbeableAt(b, ticks, n);
        assert forall k: nat | ProbeableAt(b, ticks, k) :: k == n;
      } else {
        ProbeableExact(b, front);
        forall k: nat | k < n
          ensures ProbeableAt(b, ticks, k) <==> ProbeableAt(b, front, k)
        {
          assert ticks[..k] == front[..k];
        }
      }
    }
  }

  // The latest probe step, at index k, found a station read and a lease seen.
  ghost predicate ProbeableAt(b: Boot, ticks: seq<Tick>, k: nat) {
    && LatestProbe(ticks, k)
    && (exists r: nat :: StationRead(b, ticks[..k], r))
    && (exists j: nat :: LeasedAt(ticks[..k], j))
  }

  lemma RecoveryStep(s: State, t: nat, e: Step)
    ensures Recoveries(Next(s, t, e), Up) > Recoveries(s, Up)
            <==> e == RecoverUplink && s.link.uplinkReady && s.health.up.everOk && s.health.up.failStreak >= 3
    ensures Recoveries(Next(s, t, e), Down) > Recoveries(s, Down)
            <==> e == RecoverClient && s.clients.probeable && s.health.down.everOk && s.health.down.failStreak >= 3
  {
  }

  /** Recovery, exactly: a recovery block acts if and only if its direction is there to recover, has passed
      some round of the run, and has missed its last three or more. */
  lemma RecoversExact(b: Boot, ticks: seq<Tick>, i: nat, dir: Direction)
    requires i < |ticks|
    ensures RecoversAt(b, ticks, i, dir)
            <==> && ticks[i].step == (if dir.Up? then RecoverUplink else RecoverClient)
                 && (if dir.Up? then Before(b, ticks, i).link.uplinkReady else Before(b, ticks, i).clients.probeable)
                 && Passed in Record(b, ticks[..i], dir)
                 && TrailingMisses(Record(b, ticks[..i], dir)) >= 3
  {
    StepAt(b, ticks, i);
    RecoveryStep(Before(b, ticks, i), ticks[i].at, ticks[i].step);
    RunTallies(b, ticks[..i], dir);
  }
}
