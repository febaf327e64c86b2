/** What whole runs of the router say about its reachability probes and the recoveries they drive. */
module HealthRuns {
  import opened Wrappers
  import opened Clock
  import opened RouterSpec
  import opened RouterRuns
  import opened Health

  function Recoveries(s: State, dir: Direction): nat {
    if dir.Up? then s.link.tearDowns else s.clients.deauths
  }

  // ---- Streaks ---------------------------------------------------------------

  // A verdict, the uplink seen down by an upstream update, or a recovery that reset the streaks.
  datatype Mark = Passed | Missed | Unready | Cleared

  function VerdictMarks(p: ProbeState): seq<Mark> {
    match Outcome(p)
    case Some(v) => if v.Ok? then [Passed] else [Missed]
    case None => []
  }

  // What one step adds to the record of a direction.
  function Marks(s: State, next: State, e: Step, dir: Direction): seq<Mark> {
    if e.ProbeRound? then
      VerdictMarks(s.health.Get(dir)) + (if dir.Up? && !s.link.uplinkReady then [Unready] else [])
    else if Recoveries(next, Up) > Recoveries(s, Up) || Recoveries(next, Down) > Recoveries(s, Down) then [Cleared]
    else []
  }

  // Every verdict harvested in a direction, and every clearing of its streak, in order.
  function Record(b: Boot, ticks: seq<Tick>, dir: Direction): seq<Mark>
    decreases |ticks|
  {
    if ticks == [] then []
    else Record(b, Front(ticks), dir) + Marks(Run(b, Front(ticks)), Run(b, ticks), Last(ticks).step, dir)
  }

  function TrailingMisses(h: seq<Mark>): nat
    decreases |h|
  {
    if h != [] && h[|h| - 1] == Missed then TrailingMisses(h[..|h| - 1]) + 1 else 0
  }

  function Misses(h: seq<Mark>): nat
    decreases |h|
  {
    if h == [] then 0 else Misses(h[..|h| - 1]) + (if h[|h| - 1] == Missed then 1 else 0)
  }

  // The verdict in force: the latest one, unless the uplink has been seen down since.
  function LatestVerdict(h: seq<Mark>): Verdict
    decreases |h|
  {
    if h == [] then Unknown
    else
      match h[|h| - 1]
      case Passed => Ok
      case Missed => Failed
      case Unready => Unknown
      case Cleared => LatestVerdict(h[..|h| - 1])
  }

  lemma Extend(h: seq<Mark>, m: Mark)
    ensures LatestVerdict(h + [m])
            == match m case Passed => Ok case Missed => Failed case Unready => Unknown case Cleared => LatestVerdict(h)
    ensures TrailingMisses(h + [m]) == if m.Missed? then TrailingMisses(h) + 1 else 0
    ensures Misses(h + [m]) == Misses(h) + (if m.Missed? then 1 else 0)
    ensures Passed in h + [m] <==> Passed in h || m.Passed?
  {
    assert (h + [m])[..|h|] == h;
  }

  // The counters a direction's record determines.
  predicate Tallies(h: seq<Mark>, p: ProbeState, recoveries: nat) {
    && p.failStreak == Min(255, TrailingMisses(h))
    && (p.everOk <==> Passed in h)
    && p.result == LatestVerdict(h)
    && 3 * recoveries + p.failStreak <= Misses(h)
  }

  // The client address a probe round is given.
  function ProbedClient(s: State): Word {
    if s.clients.stations > 0 && s.clients.leaseSeen then s.clients.clientIp else 0
  }

  // Any step but a probe round leaves the probes' sessions alone, and either resets both streaks,
  // recovering a direction, or leaves the counters alone.
  lemma QuietStep(s: State, t: nat, e: Step, dir: Direction)
    requires !e.ProbeRound?
    ensures var p, q := s.health.Get(dir), Next(s, t, e).health.Get(dir);
            && q.running == p.running && q.handle == p.handle && q.everOk == p.everOk && q.result == p.result
            && Next(s, t, e).health.lastRoundMs == s.health.lastRoundMs
            && (if Recoveries(Next(s, t, e), Up) > Recoveries(s, Up) || Recoveries(Next(s, t, e), Down) > Recoveries(s, Down)
                then q.failStreak == 0 else q.failStreak == p.failStreak)
    ensures Recoveries(s, dir) <= Recoveries(Next(s, t, e), dir) <= Recoveries(s, dir) + 1
    ensures Recoveries(Next(s, t, e), dir) > Recoveries(s, dir) ==> s.health.Get(dir).failStreak >= 3
  {
  }

  lemma CountsStep(s: State, t: nat, e: Step, dir: Direction)
    requires e.ProbeRound?
    ensures var q := Next(s, t, e).health.Get(dir);
            && q.everOk == Harvested(s.health.Get(dir)).everOk
            && q.failStreak == (if dir.Up? && !s.link.uplinkReady then 0 else Harvested(s.health.Get(dir)).failStreak)
            && q.result == if dir.Up? && !s.link.uplinkReady then Unknown else Harvested(s.health.Get(dir)).result
    ensures Recoveries(Next(s, t, e), dir) == Recoveries(s, dir)
  {
    UpdateCounts(s.health, t, s.link.uplinkReady, e.gateway, ProbedClient(s), e.upEnv, e.downEnv, dir);
  }

  lemma TalliesHarvest(h: seq<Mark>, p: ProbeState, recoveries: nat)
    requires Tallies(h, p, recoveries)
    ensures Tallies(h + VerdictMarks(p), Harvested(p), recoveries)
  {
    if VerdictMarks(p) == [] {
      assert h + VerdictMarks(p) == h;
    } else {
      Extend(h, VerdictMarks(p)[0]);
    }
  }

  lemma TalliesClear(h: seq<Mark>, p: ProbeState, recoveries: nat, m: Mark, q: ProbeState)
    requires m == Unready || m == Cleared
    requires q.result == if m.Unready? then Unknown else p.result
    requires p.result == LatestVerdict(h)
    requires p.failStreak == Min(255, TrailingMisses(h)) && (p.everOk <==> Passed in h)
    requires 3 * recoveries <= Misses(h)
    requires q.everOk == p.everOk && q.failStreak == 0
    ensures Tallies(h + [m], q, recoveries)
  {
    Extend(h, m);
  }

  lemma TalliesStep(s: State, t: nat, e: Step, dir: Direction, h: seq<Mark>)
    requires Tallies(h, s.health.Get(dir), Recoveries(s, dir))
    ensures Tallies(h + Marks(s, Next(s, t, e), e, dir), Next(s, t, e).health.Get(dir), Recoveries(Next(s, t, e), dir))
  {
    if e.ProbeRound? {
      TalliesProbe(s, t, e, dir, h);
    } else {
      TalliesQuiet(s, t, e, dir, h);
    }
  }

  lemma TalliesProbe(s: State, t: nat, e: Step, dir: Direction, h: seq<Mark>)
    requires e.ProbeRound? && Tallies(h, s.health.Get(dir), Recoveries(s, dir))
    ensures Tallies(h + Marks(s, Next(s, t, e), e, dir), Next(s, t, e).health.Get(dir), Recoveries(Next(s, t, e), dir))
  {
    var p, q := s.health.Get(dir), Next(s, t, e).health.Get(dir);
    CountsStep(s, t, e, dir);
    TalliesHarvest(h, p, Recoveries(s, dir));
    if dir.Up? && !s.link.uplinkReady {
      TalliesClear(h + VerdictMarks(p), Harvested(p), Recoveries(s, dir), Unready, q);
      assert h + (VerdictMarks(p) + [Unready]) == h + VerdictMarks(p) + [Unready];
    } else {
      assert VerdictMarks(p) + [] == VerdictMarks(p);
    }
  }

  lemma TalliesQuiet(s: State, t: nat, e: Step, dir: Direction, h: seq<Mark>)
    requires !e.ProbeRound? && Tallies(h, s.health.Get(dir), Recoveries(s, dir))
    ensures Tallies(h + Marks(s, Next(s, t, e), e, dir), Next(s, t, e).health.Get(dir), Recoveries(Next(s, t, e), dir))
  {
    var next := Next(s, t, e);
    QuietStep(s, t, e, dir);
    assert h + [] == h;
    if Marks(s, next, e, dir) == [Cleared] {
      TalliesClear(h, s.health.Get(dir), Recoveries(next, dir), Cleared, next.health.Get(dir));
    }
  }

  /** The fail streak is the number of failed rounds at the end of the record, capped at 255; the
      result is the latest verdict, unless the uplink has been seen down since; `everOk` says that
      some round of the whole run passed; and recoveries are paid for: three failed rounds for each
      recovery, besides those of the present streak. */
  lemma {:induction false} RunTallies(b: Boot, ticks: seq<Tick>, dir: Direction)
    ensures Run(b, ticks).health.Get(dir).failStreak == Min(255, TrailingMisses(Record(b, ticks, dir)))
    ensures Run(b, ticks).health.Get(dir).result == LatestVerdict(Record(b, ticks, dir))
    ensures Run(b, ticks).health.Get(dir).everOk <==> Passed in Record(b, ticks, dir)
    ensures 3 * Recoveries(Run(b, ticks), dir) + Run(b, ticks).health.Get(dir).failStreak <= Misses(Record(b, ticks, dir))
    decreases |ticks|
  {
    if ticks != [] {
      RunTallies(b, Front(ticks), dir);
      TalliesStep(Run(b, Front(ticks)), Last(ticks).at, Last(ticks).step, dir, Record(b, Front(ticks), dir));
    }
  }

  // The tick with index i recovers the direction.
  ghost predicate RecoversAt(b: Boot, ticks: seq<Tick>, i: nat, dir: Direction)
    requires i < |ticks|
  {
    Recoveries(Before(b, ticks, i + 1), dir) > Recoveries(Before(b, ticks, i), dir)
  }

  lemma RecoverStep(b: Boot, ticks: seq<Tick>, i: nat, dir: Direction)
    requires i < |ticks| && RecoversAt(b, ticks, i, dir)
    ensures ticks[i].step == if dir.Up? then RecoverUplink else RecoverClient
    ensures Before(b, ticks, i).health.Get(dir).failStreak >= 3
    ensures Before(b, ticks, i).health.Get(dir).everOk
    ensures dir.Up? ==> Before(b, ticks, i).link.uplinkReady
    ensures Before(b, ticks, i + 1).health == StreaksReset(Before(b, ticks, i).health)
  {
    StepAt(b, ticks, i);
  }

  /** A recovery is earned: some round of its direction passed earlier in the run, and its record
      ends in three failed rounds. */
  lemma RecoveryEarned(b: Boot, ticks: seq<Tick>, i: nat, dir: Direction)
    requires i < |ticks| && RecoversAt(b, ticks, i, dir)
    ensures var h := Record(b, ticks[..i], dir);
            Passed in h && |h| >= 4 && h[|h| - 3..] == [Missed, Missed, Missed]
  {
    var h := Record(b, ticks[..i], dir);
    RecoverStep(b, ticks, i, dir);
    RunTallies(b, ticks[..i], dir);
    LastThree(h);
  }

  lemma LastThree(h: seq<Mark>)
    requires TrailingMisses(h) >= 3 && Passed in h
    ensures |h| >= 4 && h[|h| - 3..] == [Missed, Missed, Missed]
  {
    var h1 := h[..|h| - 1];
    assert TrailingMisses(h1) >= 2;
    var h2 := h1[..|h1| - 1];
    assert TrailingMisses(h2) >= 1;
    assert h2[|h2| - 1] == h[|h| - 3] && h1[|h1| - 1] == h[|h| - 2];
    var i :| 0 <= i < |h| && h[i] == Passed;
    assert i < |h| - 3;
  }

  // ---- Sessions --------------------------------------------------------------

  /** No session leaks and none is deleted twice, over any run. */
  lemma {:induction false} SessionsStayBalanced(b: Boot, ticks: seq<Tick>)
    ensures SessionsBalanced(Run(b, ticks).health)
    decreases |ticks|
  {
    if ticks != [] {
      SessionsStayBalanced(b, Front(ticks));
      var s, e := Run(b, Front(ticks)), Last(ticks).step;
      if e.ProbeRound? {
        UpdateKeepsBalance(s.health, Last(ticks).at, s.link.uplinkReady, e.gateway, ProbedClient(s), e.upEnv, e.downEnv);
      } else {
        QuietStep(s, Last(ticks).at, e, Up);
        QuietStep(s, Last(ticks).at, e, Down);
        SameSessions(s, Last(ticks).at, e);
      }
    }
  }

  lemma SameSessions(s: State, t: nat, e: Step)
    requires !e.ProbeRound?
    ensures Next(s, t, e).health.sessions == s.health.sessions
  {
  }

  // A new session is running for this direction.
  predicate RoundStarts(s: State, next: State, dir: Direction) {
    next.health.Get(dir).running && next.health.Get(dir).handle != s.health.Get(dir).handle
  }

  // Echo replies received since the direction's latest session was started.
  function RepliesThisRound(b: Boot, ticks: seq<Tick>, dir: Direction): nat
    decreases |ticks|
  {
    if ticks == [] then 0
    else if RoundStarts(Run(b, Front(ticks)), Run(b, ticks), dir) then 0
    else RepliesThisRound(b, Front(ticks), dir) + (if Last(ticks).step == PingSuccess(dir) then 1 else 0)
  }

  lemma RepliesStep(s: State, t: nat, e: Step, dir: Direction, replies: nat)
    requires SessionsBalanced(s.health)
    requires s.health.Get(dir).running ==> s.health.Get(dir).replies == replies % WRAP
    ensures var next := Next(s, t, e);
            next.health.Get(dir).running ==>
              next.health.Get(dir).replies
              == (if RoundStarts(s, next, dir) then 0 else replies + (if e == PingSuccess(dir) then 1 else 0)) % WRAP
  {
    if e.ProbeRound? {
      UpdateReplies(s.health, t, s.link.uplinkReady, e.gateway, ProbedClient(s), e.upEnv, e.downEnv, dir);
    } else {
      QuietStep(s, t, e, dir);
      QuietReplies(s, t, e, dir);
    }
  }

  lemma QuietReplies(s: State, t: nat, e: Step, dir: Direction)
    requires !e.ProbeRound?
    ensures Next(s, t, e).health.Get(dir).replies
            == if e == PingSuccess(dir) then Add32(s.health.Get(dir).replies, 1) else s.health.Get(dir).replies
  {
  }

  lemma {:induction false} RepliesCounted(b: Boot, ticks: seq<Tick>, dir: Direction)
    ensures Run(b, ticks).health.Get(dir).running ==>
              Run(b, ticks).health.Get(dir).replies == RepliesThisRound(b, ticks, dir) % WRAP
    decreases |ticks|
  {
    if ticks != [] {
      RepliesCounted(b, Front(ticks), dir);
      SessionsStayBalanced(b, Front(ticks));
      RepliesStep(Run(b, Front(ticks)), Last(ticks).at, Last(ticks).step, dir, RepliesThisRound(b, Front(ticks), dir));
    }
  }

  /** A harvested verdict is Ok exactly when a reply arrived in that same round; replies to earlier
      rounds never count. */
  lemma VerdictExact(b: Boot, ticks: seq<Tick>, dir: Direction)
    requires Outcome(Run(b, ticks).health.Get(dir)).Some?
    requires RepliesThisRound(b, ticks, dir) < WRAP
    ensures Outcome(Run(b, ticks).health.Get(dir)) == Some(if RepliesThisRound(b, ticks, dir) > 0 then Ok else Failed)
  {
    RepliesCounted(b, ticks, dir);
    BeforeWrap(RepliesThisRound(b, ticks, dir));
  }

  // ---- Spacing of recoveries ---------------------------------------------------

  /** The round gate measures true time unless the last round began in a millisecond that reads
      zero, which the code takes for "no round yet". */
  lemma RoundGateExact(last: nat)
    ensures (forall t: nat | t >= last && RoundDue(Millis(last), Millis(t)) :: t - last >= ROUND_INTERVAL_MS)
            <==> Millis(last) != 0
  {
    if Millis(last) == 0 {
      assert RoundDue(Millis(last), Millis(last));
    } else {
      forall t: nat | t >= last && RoundDue(Millis(last), Millis(t))
        ensures t - last >= ROUND_INTERVAL_MS
      {
        Elapsed(last, t);
      }
    }
  }

  // This step, taken in state s at time t, begins a round.
  predicate BeginsRound(s: State, t: nat, e: Step) {
    e.ProbeRound? && StartsRound(HarvestedBoth(s.health), t, s.link.uplinkReady)
  }

  // The tick with index k does not begin a round in a millisecond that reads zero.
  ghost predicate GateKeptAt(b: Boot, ticks: seq<Tick>, k: nat)
    requires k < |ticks|
  {
    BeginsRound(Before(b, ticks, k), ticks[k].at, ticks[k].step) ==> Millis(ticks[k].at) != 0
  }

  // The true time at which the latest round began; 0 before the first.
  function LastRound(b: Boot, ticks: seq<Tick>): nat
    decreases |ticks|
  {
    if ticks == [] then 0
    else
      if BeginsRound(Run(b, Front(ticks)), Last(ticks).at, Last(ticks).step)
      then Last(ticks).at else LastRound(b, Front(ticks))
  }

  lemma {:induction false} RoundStamp(b: Boot, ticks: seq<Tick>)
    ensures Run(b, ticks).health.lastRoundMs == Millis(LastRound(b, ticks))
    ensures Timed(b, ticks) ==> LastRound(b, ticks) <= Now(b, ticks)
    decreases |ticks|
  {
    if ticks != [] {
      RoundStamp(b, Front(ticks));
      assert Last(ticks) == ticks[|ticks| - 1];
      assert Front(ticks) != [] ==> Last(Front(ticks)) == ticks[|ticks| - 2];
      StampStep(Run(b, Front(ticks)), Last(ticks).at, Last(ticks).step);
    }
  }

  lemma StampStep(s: State, t: nat, e: Step)
    ensures Next(s, t, e).health.lastRoundMs == if BeginsRound(s, t, e) then Millis(t) else s.health.lastRoundMs
  {
  }

  // Rounds failed in a row, counting one in flight.
  function Engaged(p: ProbeState): nat {
    p.failStreak + (if p.running then 1 else 0)
  }

  // Once `lead` rounds are engaged after a recovery at `r`, every further one has cost an interval;
  // before that, the latest round may have begun at a zero reading.
  predicate Paced(engaged: nat, lastRound: nat, r: nat, lead: nat) {
    && (engaged >= lead ==> lastRound >= r && Millis(lastRound) != 0)
    && (engaged >= lead + 1 ==> lastRound >= r + ROUND_INTERVAL_MS)
    && (engaged >= lead + 2 ==> lastRound >= r + 2 * ROUND_INTERVAL_MS)
  }

  // What a step does to the number of rounds engaged.
  lemma EngagedStep(s: State, t: nat, e: Step, dir: Direction)
    ensures Engaged(Next(s, t, e).health.Get(dir))
            <= Engaged(s.health.Get(dir)) + (if BeginsRound(s, t, e) then 1 else 0)
  {
    if e.ProbeRound? {
      EngagedUpdate(s.health, t, s.link.uplinkReady, e.gateway, ProbedClient(s), e.upEnv, e.downEnv, dir);
    } else {
      QuietStep(s, t, e, dir);
    }
  }

  lemma EngagedUpdate(h: HealthState, t: nat, ready: bool, gateway: Word, client: Word, upEnv: PingEnv, downEnv: PingEnv,
                      dir: Direction)
    ensures Engaged(Updated(h, t, ready, gateway, client, upEnv, downEnv).Get(dir))
            <= Engaged(h.Get(dir)) + (if StartsRound(HarvestedBoth(h), t, ready) then 1 else 0)
  {
    assert HarvestedBoth(h).Get(dir) == Harvested(h.Get(dir));
  }

  lemma PacedStep(s: State, t: nat, e: Step, dir: Direction, lastRound: nat, r: nat, lead: nat)
    requires s.health.lastRoundMs == Millis(lastRound) && lastRound <= t && r <= t && lead >= 1
    requires BeginsRound(s, t, e) ==> Millis(t) != 0
    requires Paced(Engaged(s.health.Get(dir)), lastRound, r, lead)
    ensures Paced(Engaged(Next(s, t, e).health.Get(dir)), if BeginsRound(s, t, e) then t else lastRound, r, lead)
  {
    EngagedStep(s, t, e, dir);
    if BeginsRound(s, t, e) && Millis(lastRound) != 0 {
      Elapsed(lastRound, t);
    }
  }

  // The recovery at tick i finds no round of its direction in flight, or one that began in that very
  // millisecond, and not at a zero reading.
  ghost predicate FreshAt(b: Boot, ticks: seq<Tick>, i: nat, dir: Direction)
    requires i < |ticks|
  {
    Before(b, ticks, i).health.Get(dir).running ==>
      LastRound(b, ticks[..i]) == ticks[i].at && Millis(ticks[i].at) != 0
  }

  lemma {:induction false} RunPaced(b: Boot, ticks: seq<Tick>, i: nat, n: nat, dir: Direction, lead: nat)
    requires Timed(b, ticks) && i < n <= |ticks| && RecoversAt(b, ticks, i, dir)
    requires forall k: nat | i < k < n :: GateKeptAt(b, ticks, k)
    requires lead == 2 || (lead == 1 && FreshAt(b, ticks, i, dir))
    ensures Paced(Engaged(Before(b, ticks, n).health.Get(dir)), LastRound(b, ticks[..n]), ticks[i].at, lead)
    decreases n
  {
    var t := ticks[n - 1].at;
    StepAt(b, ticks, n - 1);
    RoundStamp(b, ticks[..n - 1]);
    if n == i + 1 {
      RecoverStep(b, ticks, i, dir);
      assert !BeginsRound(Before(b, ticks, i), t, ticks[i].step);
    } else {
      RunPaced(b, ticks, i, n - 1, dir, lead);
      assert GateKeptAt(b, ticks, n - 1);
      assert Last(ticks[..n - 1]) == ticks[n - 2];
      PacedStep(Before(b, ticks, n - 1), t, ticks[n - 1].step, dir, LastRound(b, ticks[..n - 1]), ticks[i].at, lead);
    }
  }

  lemma PacedRecovery(b: Boot, ticks: seq<Tick>, i: nat, j: nat, dir: Direction, lead: nat)
    requires Timed(b, ticks) && i < j < |ticks| && RecoversAt(b, ticks, i, dir) && RecoversAt(b, ticks, j, dir)
    requires forall k: nat | i < k < j :: GateKeptAt(b, ticks, k)
    requires lead == 2 || (lead == 1 && FreshAt(b, ticks, i, dir))
    ensures ticks[j].at - ticks[i].at >= (3 - lead) * ROUND_INTERVAL_MS
  {
    RunPaced(b, ticks, i, j, dir, lead);
    RecoverStep(b, ticks, j, dir);
    RoundStamp(b, ticks[..j]);
    assert Last(ticks[..j]) == ticks[j - 1];
  }

  /** Whatever happens in between, two recoveries of one direction are at least one round interval apart,
      unless a round begins between them in a millisecond that reads zero. */
  lemma RecoverySpacing(b: Boot, ticks: seq<Tick>, i: nat, j: nat, dir: Direction)
    requires Timed(b, ticks) && i < j < |ticks| && RecoversAt(b, ticks, i, dir) && RecoversAt(b, ticks, j, dir)
    requires forall k: nat | i < k < j :: GateKeptAt(b, ticks, k)
    ensures ticks[j].at - ticks[i].at >= 60000
  {
    PacedRecovery(b, ticks, i, j, dir, 2);
  }

  // ---- Atomic iterations -------------------------------------------------------

  predicate Adjacent(ticks: seq<Tick>, i: nat)
    requires i + 1 < |ticks|
  {
    && (ticks[i].step.ProbeRound? <==> ticks[i + 1].step == RecoverUplink)
    && (ticks[i].step == RecoverUplink <==> ticks[i + 1].step == RecoverClient)
    && (ticks[i + 1].step == RecoverUplink || ticks[i + 1].step == RecoverClient ==> ticks[i].at == ticks[i + 1].at)
  }

  // The probe round and the two recovery blocks of an iteration follow each other at once.
  ghost predicate AtomicIterations(ticks: seq<Tick>) {
    && (ticks != [] ==> ticks[0].step != RecoverUplink && ticks[0].step != RecoverClient)
    && forall i: nat | i + 1 < |ticks| :: Adjacent(ticks, i)
  }

  // No running probe has a streak that would have recovered its direction.
  predicate Calm(p: ProbeState) {
    p.running && p.everOk ==> p.failStreak < 3
  }

  predicate Recoverable(s: State, dir: Direction) {
    if dir.Up? then s.link.uplinkReady else s.clients.probeable
  }

  // A probe round alarms a calm direction only by a round that it begins, and leaves it recoverable.
  lemma AlarmStep(s: State, t: nat, e: Step, dir: Direction)
    requires e.ProbeRound? && Calm(s.health.Get(dir))
    ensures Calm(Next(s, t, e).health.Get(dir)) || (BeginsRound(s, t, e) && Recoverable(Next(s, t, e), dir))
  {
    assert HarvestedBoth(s.health).Get(dir) == Harvested(s.health.Get(dir));
    CountsStep(s, t, e, dir);
  }

  lemma CalmStep(s: State, t: nat, e: Step, dir: Direction)
    requires !e.ProbeRound? && (Calm(s.health.Get(dir)) || Recoverable(s, dir))
    ensures e == (if dir.Up? then RecoverUplink else RecoverClient) ==> Calm(Next(s, t, e).health.Get(dir))
    ensures e == RecoverUplink ==> Calm(Next(s, t, e).health.Get(dir)) || Recoverable(Next(s, t, e), dir)
    ensures Calm(s.health.Get(dir)) ==> Calm(Next(s, t, e).health.Get(dir))
  {
    QuietStep(s, t, e, dir);
  }

  predicate MidIteration(e: Step, dir: Direction) {
    e.ProbeRound? || (dir.Down? && e == RecoverUplink)
  }

  lemma {:induction false} AtomicCalm(b: Boot, ticks: seq<Tick>, dir: Direction)
    requires AtomicIterations(ticks)
    ensures Calm(Run(b, ticks).health.Get(dir)) || Recoverable(Run(b, ticks), dir)
    ensures ticks == [] || !MidIteration(Last(ticks).step, dir) ==> Calm(Run(b, ticks).health.Get(dir))
    decreases |ticks|
  {
    if ticks != [] {
      var front := Front(ticks);
      AtomicPrefix(ticks, |ticks| - 1);
      AtomicCalm(b, front, dir);
      var s, t, e := Run(b, front), Last(ticks).at, Last(ticks).step;
      if |ticks| >= 2 {
        assert Adjacent(ticks, |ticks| - 2);
        assert Last(front) == ticks[|ticks| - 2];
      }
      if e.ProbeRound? {
        AlarmStep(s, t, e, dir);
      } else {
        CalmStep(s, t, e, dir);
      }
    }
  }

  lemma CalmBefore(b: Boot, ticks: seq<Tick>, k: nat, dir: Direction)
    requires AtomicIterations(ticks) && k < |ticks| && ticks[k].step.ProbeRound?
    ensures Calm(Before(b, ticks, k).health.Get(dir))
  {
    AtomicPrefix(ticks, k);
    AtomicCalm(b, ticks[..k], dir);
    if k > 0 {
      assert Adjacent(ticks, k - 1);
      assert Last(ticks[..k]) == ticks[k - 1];
    }
  }

  lemma AtomicPrefix(ticks: seq<Tick>, n: nat)
    requires AtomicIterations(ticks) && n <= |ticks|
    ensures AtomicIterations(ticks[..n])
  {
    forall i: nat | i + 1 < n
      ensures Adjacent(ticks[..n], i)
    {
      assert Adjacent(ticks, i);
    }
  }

  // No iteration is in the middle of its probe round and recovery blocks.
  predicate Between(ticks: seq<Tick>) {
    ticks == [] || (!Last(ticks).step.ProbeRound? && Last(ticks).step != RecoverUplink)
  }

  lemma AtomicMore(ticks: seq<Tick>, more: seq<Tick>)
    requires AtomicIterations(ticks) && Between(ticks) && AtomicIterations(more)
    ensures AtomicIterations(ticks + more)
  {
    var all := ticks + more;
    forall i: nat | i + 1 < |all|
      ensures Adjacent(all, i)
    {
      if i + 1 < |ticks| {
        assert Adjacent(ticks, i);
      } else if i >= |ticks| {
        assert Adjacent(more, i - |ticks|);
      } else {
        assert all[i] == Last(ticks) && all[i + 1] == more[0];
      }
    }
  }

  /** One iteration of loop(), as the method Router.Loop performs it, is atomic in this sense, and so
      is one after another with events in between. */
  lemma LoopIsAtomic(ticks: seq<Tick>, env: LoopEnv)
    requires AtomicIterations(ticks) && Between(ticks)
    ensures AtomicIterations(ticks + At(env.at, LoopSteps(env))) && Between(ticks + At(env.at, LoopSteps(env)))
  {
    AtomicMore(ticks, At(env.at, LoopSteps(env)));
  }

  lemma EventIsAtomic(ticks: seq<Tick>, tick: Tick)
    requires AtomicIterations(ticks) && Between(ticks)
    requires !tick.step.ProbeRound? && tick.step != RecoverUplink && tick.step != RecoverClient
    ensures AtomicIterations(ticks + [tick]) && Between(ticks + [tick])
  {
    AtomicMore(ticks, [tick]);
  }

  // The round found in flight by a recovery, with iterations atomic, began in its own iteration.
  lemma AtomicFresh(b: Boot, ticks: seq<Tick>, i: nat, dir: Direction) returns (k: nat)
    requires AtomicIterations(ticks) && i < |ticks| && RecoversAt(b, ticks, i, dir)
    requires Before(b, ticks, i).health.Get(dir).running
    ensures i <= k + 2 && k < i && BeginsRound(Before(b, ticks, k), ticks[k].at, ticks[k].step)
    ensures LastRound(b, ticks[..i]) == ticks[k].at == ticks[i].at
  {
    RecoverStep(b, ticks, i, dir);
    assert i > 0 && Adjacent(ticks, i - 1);
    k := if dir.Up? then i - 1 else i - 2;
    if dir.Down? {
      assert i > 1 && Adjacent(ticks, i - 2);
      StepAt(b, ticks, i - 1);
      QuietStep(Before(b, ticks, i - 1), ticks[i - 1].at, ticks[i - 1].step, dir);
    }
    StepAt(b, ticks, k);
    CalmBefore(b, ticks, k, dir);
    CountsStep(Before(b, ticks, k), ticks[k].at, ticks[k].step, dir);
    AlarmStep(Before(b, ticks, k), ticks[k].at, ticks[k].step, dir);
  }

  /** With loop iterations atomic, two recoveries of one direction are at least two minutes apart, unless a
      round begins at a zero reading between them or in the iteration of the first. */
  lemma AtomicRecoverySpacing(b: Boot, ticks: seq<Tick>, i: nat, j: nat, dir: Direction)
    requires Timed(b, ticks) && AtomicIterations(ticks)
    requires i < j < |ticks| && RecoversAt(b, ticks, i, dir) && RecoversAt(b, ticks, j, dir)
    requires forall k: nat | i <= k + 2 && k < j :: GateKeptAt(b, ticks, k)
    ensures ticks[j].at - ticks[i].at >= 120000
  {
    if Before(b, ticks, i).health.Get(dir).running {
      var k := AtomicFresh(b, ticks, i, dir);
      assert GateKeptAt(b, ticks, k);
    }
    PacedRecovery(b, ticks, i, j, dir, 1);
  }
}
