/**
 Recoveries when a probe round does begin in a millisecond that reads zero: how far apart they still
 are, and the runs that come that close.
 */
module RoundEdges {
  import opened Wrappers
  import opened Clock
  import opened RouterSpec
  import opened RouterRuns
  import opened Health
  import opened HealthRuns

  // ---- What is left of the spacing -----------------------------------------------

  // Every round of the direction that is harvested strictly between ticks i and j took `length` or more.
  ghost predicate RoundsTake(b: Boot, ticks: seq<Tick>, i: nat, j: nat, dir: Direction, length: nat)
    requires j <= |ticks|
  {
    forall k: nat | i < k < j :: HarvestTakes(b, ticks, k, dir, length)
  }

  ghost predicate HarvestTakes(b: Boot, ticks: seq<Tick>, k: nat, dir: Direction, length: nat)
    requires k < |ticks|
  {
    ticks[k].step.ProbeRound? && Outcome(Before(b, ticks, k).health.Get(dir)).Some? ==>
      ticks[k].at >= LastRound(b, ticks[..k]) + length
  }

  // What `misses` failed rounds since a recovery at r have cost by the time `now`, when one of the
  // rounds may have begun at a zero reading.
  predicate Slowed(misses: nat, running: bool, lastRound: nat, now: nat, r: nat, length: nat) {
    && (misses >= 1 || running ==> lastRound >= r)
    && (misses >= 1 ==> now >= r + length)
    && (misses == 1 && running ==>
          lastRound >= r + length && (lastRound >= r + ROUND_INTERVAL_MS || Millis(lastRound) != 0))
    && (misses == 1 && !running ==>
          lastRound >= r + ROUND_INTERVAL_MS || Millis(lastRound) != 0 || now >= lastRound + length)
    && (misses == 2 && running ==> lastRound >= r + ROUND_INTERVAL_MS + length)
    && (misses == 2 && !running ==>
          now >= r + ROUND_INTERVAL_MS + length || (lastRound >= r + length && Millis(lastRound) != 0))
    && (misses >= 3 ==> now >= r + ROUND_INTERVAL_MS + 2 * length)
  }

  predicate SlowedProbe(p: ProbeState, lastRound: nat, now: nat, r: nat, length: nat) {
    Slowed(p.failStreak, p.running, lastRound, now, r, length)
  }

  lemma SlowedHarvest(p: ProbeState, lastRound: nat, now: nat, t: nat, r: nat, length: nat)
    requires SlowedProbe(p, lastRound, now, r, length) && lastRound <= now <= t
    requires Outcome(p).Some? ==> t >= lastRound + length
    ensures SlowedProbe(Harvested(p), lastRound, t, r, length)
  {
  }

  // A round begins, with a session for this direction or without one.
  lemma SlowedBegin(misses: nat, lastRound: nat, t: nat, starts: bool, r: nat, length: nat)
    requires Slowed(misses, false, lastRound, t, r, length) && lastRound <= t && r <= t
    requires RoundDue(Millis(lastRound), Millis(t)) && 1 <= length <= ROUND_INTERVAL_MS
    ensures Slowed(misses, starts, t, t, r, length)
  {
    if Millis(lastRound) != 0 {
      Elapsed(lastRound, t);
    } else if Millis(t) == 0 && lastRound < t {
      Elapsed(lastRound, t);
    }
  }

  lemma SlowedProbeRound(s: State, t: nat, e: Step, dir: Direction, lastRound: nat, now: nat, r: nat, length: nat)
    requires e.ProbeRound? && s.health.lastRoundMs == Millis(lastRound) && lastRound <= now <= t && r <= now
    requires 1 <= length <= ROUND_INTERVAL_MS
    requires SlowedProbe(s.health.Get(dir), lastRound, now, r, length)
    requires Outcome(s.health.Get(dir)).Some? ==> t >= lastRound + length
    ensures SlowedProbe(Next(s, t, e).health.Get(dir), if BeginsRound(s, t, e) then t else lastRound, t, r, length)
  {
    var p, k, q := s.health.Get(dir), HarvestedBoth(s.health), Next(s, t, e).health.Get(dir);
    SlowedHarvest(p, lastRound, now, t, r, length);
    assert k.Get(dir) == Harvested(p);
    CountsStep(s, t, e, dir);
    if BeginsRound(s, t, e) {
      SlowedBegin(k.Get(dir).failStreak, lastRound, t, q.running, r, length);
    }
  }

  lemma SlowedStep(s: State, t: nat, e: Step, dir: Direction, lastRound: nat, now: nat, r: nat, length: nat)
    requires s.health.lastRoundMs == Millis(lastRound) && lastRound <= now <= t && r <= now
    requires 1 <= length <= ROUND_INTERVAL_MS
    requires SlowedProbe(s.health.Get(dir), lastRound, now, r, length)
    requires e.ProbeRound? && Outcome(s.health.Get(dir)).Some? ==> t >= lastRound + length
    ensures SlowedProbe(Next(s, t, e).health.Get(dir), if BeginsRound(s, t, e) then t else lastRound, t, r, length)
  {
    if e.ProbeRound? {
      SlowedProbeRound(s, t, e, dir, lastRound, now, r, length);
    } else {
      QuietStep(s, t, e, dir);
    }
  }

  lemma {:induction false} RunSlowed(b: Boot, ticks: seq<Tick>, i: nat, n: nat, dir: Direction, length: nat)
    requires Timed(b, ticks) && AtomicIterations(ticks) && i < n <= |ticks| && RecoversAt(b, ticks, i, dir)
    requires 1 <= length <= ROUND_INTERVAL_MS && RoundsTake(b, ticks, i, n, dir, length)
    ensures SlowedProbe(Before(b, ticks, n).health.Get(dir), LastRound(b, ticks[..n]), ticks[n - 1].at, ticks[i].at, length)
    decreases n
  {
    StepAt(b, ticks, n - 1);
    RoundStamp(b, ticks[..n - 1]);
    if n == i + 1 {
      RecoverStep(b, ticks, i, dir);
      QuietStep(Before(b, ticks, i), ticks[i].at, ticks[i].step, dir);
      if Before(b, ticks, i).health.Get(dir).running {
        var _ := AtomicFresh(b, ticks, i, dir);
      }
    } else {
      RunSlowed(b, ticks, i, n - 1, dir, length);
      assert HarvestTakes(b, ticks, n - 1, dir, length);
      assert Last(ticks[..n - 1]) == ticks[n - 2];
      SlowedStep(Before(b, ticks, n - 1), ticks[n - 1].at, ticks[n - 1].step, dir,
                 LastRound(b, ticks[..n - 1]), ticks[n - 2].at, ticks[i].at, length);
    }
  }

  /** Zero readings or not: with iterations atomic and every round taking at least `length`, two
      recoveries of one direction are at least one interval and two such lengths apart. */
  lemma AtomicSpacingAnyway(b: Boot, ticks: seq<Tick>, i: nat, j: nat, dir: Direction, length: nat)
    requires Timed(b, ticks) && AtomicIterations(ticks)
    requires i < j < |ticks| && RecoversAt(b, ticks, i, dir) && RecoversAt(b, ticks, j, dir)
    requires 1 <= length <= ROUND_INTERVAL_MS && RoundsTake(b, ticks, i, j, dir, length)
    ensures ticks[j].at - ticks[i].at >= 60000 + 2 * length
  {
    RunSlowed(b, ticks, i, j, dir, length);
    RecoverStep(b, ticks, j, dir);
  }

  // ---- Runs that come that close -------------------------------------------------

  // The probe and recovery blocks of an iteration, with a gateway that can be probed.
  const PROBED: seq<Step> := [ProbeRound(1, PingEnv(true, true), PingEnv(true, true)), RecoverUplink, RecoverClient]

  // No client is there; the upstream probe has once been answered, and since then has missed `streak`
  // rounds, not counting one in flight.
  predicate Missed(s: State, streak: nat) {
    && s.health.up.everOk && s.health.up.failStreak == streak && (s.health.up.running ==> s.health.up.replies == 0)
    && !s.health.down.running && s.clients.stations == 0
  }

  lemma ThreeSteps(s: State, t: nat, a: Step, b: Step, c: Step)
    ensures After(s, At(t, [a, b, c])) == Next(Next(Next(s, t, a), t, b), t, c)
  {
    AfterAt(s, t, [a, b, c]);
    var s3 := Next(Next(Next(s, t, a), t, b), t, c);
    assert [a, b, c][1..] == [b, c] && [b, c][1..] == [c] && [c][1..] == [];
    assert Iterated(s3, t, []) == s3;
    assert Iterated(Next(Next(s, t, a), t, b), t, [c]) == s3;
  }

  // An iteration at time t that has no session to harvest: it begins a round if one is due.
  lemma IdleStep(s: State, t: nat, streak: nat)
    requires Missed(s, streak) && streak <= 2 && s.link.uplinkReady && !s.health.up.running
    ensures var next := After(s, At(t, PROBED));
            && Missed(next, streak) && next.link.uplinkReady
            && next.health.up.running == RoundDue(s.health.lastRoundMs, Millis(t))
            && next.health.lastRoundMs == (if next.health.up.running then Millis(t) else s.health.lastRoundMs)
  {
    ThreeSteps(s, t, PROBED[0], PROBED[1], PROBED[2]);
    var s1 := Next(s, t, PROBED[0]);
    assert Missed(s1, streak) && !s1.clients.probeable;
  }

  // The round in flight ends at time t without a reply, and an iteration harvests it.
  function Ending(t: nat): (r: seq<Tick>)
    ensures |r| == 4 && forall i | 0 <= i < 4 :: r[i].at == t
  {
    [Tick(t, PingEnd(Up))] + At(t, PROBED)
  }

  // It is missed, the link recovered if it is the third, and the next round begun if it is due.
  lemma MissStep(s: State, t: nat, streak: nat)
    requires Missed(s, streak) && streak <= 2 && s.link.uplinkReady && s.health.up.running
    ensures var next := After(s, Ending(t));
            && next.link.tearDowns == s.link.tearDowns + (if streak == 2 then 1 else 0)
            && next.link.uplinkReady == (streak < 2)
            && Missed(next, if streak == 2 then 0 else streak + 1)
            && next.health.up.running == RoundDue(s.health.lastRoundMs, Millis(t))
            && next.health.lastRoundMs == (if next.health.up.running then Millis(t) else s.health.lastRoundMs)
  {
    assert Ending(t)[1..] == At(t, PROBED);
    var s1 := Next(s, t, PingEnd(Up));
    ThreeSteps(s1, t, PROBED[0], PROBED[1], PROBED[2]);
    var s2 := Next(s1, t, PROBED[0]);
    assert Outcome(s1.health.up) == Some(Failed);
    assert s2.health.up.failStreak == streak + 1 && !s2.clients.probeable;
  }

  // A run that more ticks may follow from time t on, between two iterations.
  ghost predicate Extensible(b: Boot, ticks: seq<Tick>, t: nat) {
    Timed(b, ticks) && Now(b, ticks) <= t && AtomicIterations(ticks) && Between(ticks)
  }

  lemma ExtendedBy(b: Boot, ticks: seq<Tick>, t: nat, more: seq<Tick>)
    requires Extensible(b, ticks, t) && b.attemptAt <= t
    requires more != [] && (forall i | 0 <= i < |more| :: more[i].at == t)
    requires AtomicIterations(more) && Between(more)
    ensures Extensible(b, ticks + more, t)
  {
    AtomicMore(ticks, more);
    var all := ticks + more;
    assert Last(all) == Last(more);
    forall i, j | 0 <= i <= j < |all|
      ensures all[i].at <= all[j].at
    {
      if i < |ticks| <= j {
        assert ticks[i].at <= ticks[|ticks| - 1].at;
      }
    }
  }

  // A run that more ticks may follow from time t on, with the link up and `streak` rounds missed.
  ghost predicate Missing(b: Boot, ticks: seq<Tick>, t: nat, streak: nat) {
    Extensible(b, ticks, t) && b.attemptAt <= t && Missed(Run(b, ticks), streak) && Run(b, ticks).link.uplinkReady
  }

  // The same with a round in flight, or without one.
  ghost predicate InRound(b: Boot, ticks: seq<Tick>, t: nat, streak: nat) {
    Missing(b, ticks, t, streak) && Run(b, ticks).health.up.running
  }

  ghost predicate Resting(b: Boot, ticks: seq<Tick>, t: nat, streak: nat) {
    Missing(b, ticks, t, streak) && !Run(b, ticks).health.up.running
  }

  function Stamp(b: Boot, ticks: seq<Tick>): Word {
    Run(b, ticks).health.lastRoundMs
  }

  lemma Later(b: Boot, ticks: seq<Tick>, t: nat, streak: nat, later: nat)
    requires Missing(b, ticks, t, streak) && t <= later
    ensures Missing(b, ticks, later, streak)
  {
  }

  lemma RoundBegun(b: Boot, ticks: seq<Tick>, t: nat, streak: nat) returns (next: seq<Tick>)
    requires Resting(b, ticks, t, streak) && streak <= 2 && RoundDue(Stamp(b, ticks), Millis(t))
    ensures ticks <= next && InRound(b, next, t, streak) && Stamp(b, next) == Millis(t)
  {
    next := ticks + At(t, PROBED);
    ExtendedBy(b, ticks, t, At(t, PROBED));
    RunAfter(b, ticks, At(t, PROBED));
    IdleStep(Run(b, ticks), t, streak);
  }

  lemma RoundMissed(b: Boot, ticks: seq<Tick>, t: nat, streak: nat) returns (next: seq<Tick>)
    requires InRound(b, ticks, t, streak) && streak <= 1
    ensures ticks <= next
    ensures RoundDue(Stamp(b, ticks), Millis(t)) ==> InRound(b, next, t, streak + 1) && Stamp(b, next) == Millis(t)
    ensures !RoundDue(Stamp(b, ticks), Millis(t)) ==> Resting(b, next, t, streak + 1) && Stamp(b, next) == Stamp(b, ticks)
  {
    next := ticks + Ending(t);
    ExtendedBy(b, ticks, t, Ending(t));
    RunAfter(b, ticks, Ending(t));
    MissStep(Run(b, ticks), t, streak);
  }

  // The third round missed recovers the link.
  lemma ThirdMissed(b: Boot, ticks: seq<Tick>, t: nat) returns (next: seq<Tick>)
    requires InRound(b, ticks, t, 2)
    ensures next == ticks + Ending(t) && Extensible(b, next, t)
    ensures RecoversAt(b, next, |ticks| + 2, Up) && next[|ticks| + 2].at == t
  {
    next := ticks + Ending(t);
    ExtendedBy(b, ticks, t, Ending(t));
    RunAfter(b, ticks, Ending(t));
    MissStep(Run(b, ticks), t, 2);
    EndingRecovers(b, ticks, t);
  }

  // Only the recovery block of such an iteration recovers.
  lemma EndingRecovers(b: Boot, ticks: seq<Tick>, t: nat)
    requires Run(b, ticks + Ending(t)).link.tearDowns > Run(b, ticks).link.tearDowns
    ensures RecoversAt(b, ticks + Ending(t), |ticks| + 2, Up)
  {
    var next, n := ticks + Ending(t), |ticks|;
    assert next[..n] == ticks && next[..n + 4] == next;
    StepAt(b, next, n);
    StepAt(b, next, n + 1);
    StepAt(b, next, n + 3);
  }

  // And then an address arrives.
  lemma ThirdThenOnline(b: Boot, ticks: seq<Tick>, t: nat) returns (next: seq<Tick>)
    requires InRound(b, ticks, t, 2)
    ensures ticks <= next && |ticks| + 2 < |next| && next[|ticks| + 2].at == t && RecoversAt(b, next, |ticks| + 2, Up)
    ensures RoundDue(Stamp(b, ticks), Millis(t)) ==> InRound(b, next, t, 0) && Stamp(b, next) == Millis(t)
    ensures !RoundDue(Stamp(b, ticks), Millis(t)) ==> Resting(b, next, t, 0) && Stamp(b, next) == Stamp(b, ticks)
  {
    var first := ThirdMissed(b, ticks, t);
    RunAfter(b, ticks, Ending(t));
    MissStep(Run(b, ticks), t, 2);
    ExtendedBy(b, first, t, [Tick(t, Radio(StaGotIp))]);
    next := first + [Tick(t, Radio(StaGotIp))];
    assert Front(next) == first;
    RecoversStill(b, first, next, |ticks| + 2);
  }

  lemma RecoversStill(b: Boot, ticks: seq<Tick>, more: seq<Tick>, i: nat)
    requires i < |ticks| && RecoversAt(b, ticks, i, Up) && ticks <= more
    ensures RecoversAt(b, more, i, Up)
  {
    assert more[..i] == ticks[..i] && more[..i + 1] == ticks[..i + 1];
  }

  // When the round begun at t is missed after `length`, and so is the next, the time to begin a third.
  function NextDue(t: nat, length: nat): nat {
    if length == 0 then t else t + length + ROUND_INTERVAL_MS
  }

  lemma DueAgain(from: nat, t: nat)
    requires from + ROUND_INTERVAL_MS <= t < from + WRAP
    ensures RoundDue(Millis(from), Millis(t))
  {
    Elapsed(from, t);
  }

  lemma NotDueYet(from: nat, t: nat)
    requires Millis(from) != 0 && from <= t < from + ROUND_INTERVAL_MS
    ensures !RoundDue(Millis(from), Millis(t))
  {
    Elapsed(from, t);
  }

  // With a round in flight that began at a zero reading, two are soon missed.
  lemma TwoMissed(b: Boot, ticks: seq<Tick>, t: nat, length: nat) returns (next: seq<Tick>)
    requires InRound(b, ticks, t, 0) && Millis(t) == 0 && length < ROUND_INTERVAL_MS && Stamp(b, ticks) == 0
    ensures ticks <= next && InRound(b, next, NextDue(t, length) + length, 2)
  {
    Later(b, ticks, t, 0, t + length);
    var once := RoundMissed(b, ticks, t + length, 0);
    Later(b, once, t + length, 1, NextDue(t, length));
    if length > 0 {
      DueAgain(t + length, NextDue(t, length));
    }
    next := RoundMissed(b, once, NextDue(t, length), 1);
    Later(b, next, NextDue(t, length), 2, NextDue(t, length) + length);
  }

  lemma ThirdAtLast(b: Boot, ticks: seq<Tick>, t: nat, length: nat, i: nat) returns (run: seq<Tick>, j: nat)
    requires InRound(b, ticks, t, 0) && Millis(t) == 0 && length < ROUND_INTERVAL_MS && Stamp(b, ticks) == 0
    requires i < |ticks| && RecoversAt(b, ticks, i, Up)
    ensures ticks <= run && Timed(b, run) && AtomicIterations(run)
    ensures i < j < |run| && RecoversAt(b, run, i, Up) && RecoversAt(b, run, j, Up)
    ensures run[j].at == NextDue(t, length) + length
  {
    var twice := TwoMissed(b, ticks, t, length);
    run := ThirdMissed(b, twice, NextDue(t, length) + length);
    j := |twice| + 2;
    RecoversStill(b, ticks, run, i);
  }

  /** The bound is met: every run without clients that harvests a third missed upstream round with the next
      one due, in a millisecond reading zero, can go on to a second recovery one interval and two
      round lengths later. */
  lemma RoundAtZeroHurries(b: Boot, ticks: seq<Tick>, t: nat, length: nat)
    returns (run: seq<Tick>, i: nat, j: nat)
    requires InRound(b, ticks, t, 2) && RoundDue(Stamp(b, ticks), Millis(t))
    requires Millis(t) == 0 && length < ROUND_INTERVAL_MS
    ensures ticks <= run && Timed(b, run) && AtomicIterations(run)
    ensures i < j < |run| && RecoversAt(b, run, i, Up) && RecoversAt(b, run, j, Up)
    ensures run[j].at - run[i].at == if length == 0 then 0 else ROUND_INTERVAL_MS + 2 * length
  {
    var online := ThirdThenOnline(b, ticks, t);
    i := |ticks| + 2;
    run, j := ThirdAtLast(b, online, t, length, i);
  }

  const ROUND_MS := 2000      // a round of three requests
  const HELD_MS := 21000      // a harvest held up by a throughput test of 20 s

  // A round that begins at t and is missed two seconds later.
  lemma RoundPasses(b: Boot, ticks: seq<Tick>, t: nat, streak: nat) returns (next: seq<Tick>)
    requires Resting(b, ticks, t, streak) && streak <= 1 && RoundDue(Stamp(b, ticks), Millis(t)) && Millis(t) != 0
    ensures ticks <= next && Resting(b, next, t + ROUND_MS, streak + 1) && Stamp(b, next) == Millis(t)
  {
    var begun := RoundBegun(b, ticks, t, streak);
    Later(b, begun, t, streak, t + ROUND_MS);
    NotDueYet(t, t + ROUND_MS);
    next := RoundMissed(b, begun, t + ROUND_MS, streak);
  }

  lemma BeforeRollover(t: nat, d: nat)
    requires Millis(t) == 0 && 0 < d <= t && d < WRAP
    ensures Millis(t - d) != 0
  {
    DivMod(t - d, t / WRAP - 1, WRAP - d);
  }

  lemma Rested(b: Boot, ticks: seq<Tick>, t: nat, streak: nat, from: nat, later: nat)
    requires Resting(b, ticks, t, streak) && Stamp(b, ticks) == Millis(from)
    requires t <= later && from + ROUND_INTERVAL_MS <= later < from + WRAP
    ensures Resting(b, ticks, later, streak) && RoundDue(Stamp(b, ticks), Millis(later))
  {
    Later(b, ticks, t, streak, later);
    DueAgain(from, later);
  }

  lemma ThreeRounds(b: Boot, ticks: seq<Tick>, t: nat) returns (next: seq<Tick>)
    requires Resting(b, ticks, t, 0) && RoundDue(Stamp(b, ticks), Millis(t))
    requires Millis(t) != 0 && Millis(t + 60000) != 0 && Millis(t + 120000) != 0
    ensures ticks <= next && InRound(b, next, t + 120000, 2) && Stamp(b, next) == Millis(t + 120000)
  {
    var one := RoundPasses(b, ticks, t, 0);
    Rested(b, one, t + ROUND_MS, 1, t, t + 60000);
    var two := RoundPasses(b, one, t + 60000, 1);
    Rested(b, two, t + 60000 + ROUND_MS, 2, t + 60000, t + 120000);
    next := RoundBegun(b, two, t + 120000, 2);
  }

  // The third round's harvest is held up, and the next round begins as the clock reads zero.
  lemma HeldUp(b: Boot, ticks: seq<Tick>, t: nat) returns (next: seq<Tick>)
    requires t >= 60000 && Millis(t) == 0
    requires InRound(b, ticks, t - 60000, 2) && Stamp(b, ticks) == Millis(t - 60000)
    ensures ticks <= next && InRound(b, next, t, 0) && Stamp(b, next) == 0
    ensures |ticks| + 2 < |next| && next[|ticks| + 2].at == t - 39000 && RecoversAt(b, next, |ticks| + 2, Up)
  {
    var held := t - 60000 + HELD_MS;
    BeforeRollover(t, 60000);
    Later(b, ticks, t - 60000, 2, held);
    NotDueYet(t - 60000, held);
    var online := ThirdThenOnline(b, ticks, held);
    Rested(b, online, held, 0, t - 60000, t);
    next := RoundBegun(b, online, t, 0);
    RecoversStill(b, online, next, |ticks| + 2);
  }

  /** And the board can come below two minutes: from any state at rest, three minutes before the clock
      reads zero. Its rounds take two seconds and are missed; a throughput test holds up the harvest of the
      third, and with it the recovery; the next round begins as the clock reads zero. The second
      recovery follows 103 seconds after the first. */
  lemma HurriedAtRollover(b: Boot, ticks: seq<Tick>, t: nat) returns (run: seq<Tick>, i: nat, j: nat)
    requires t >= 180000 && Millis(t) == 0
    requires Resting(b, ticks, t - 180000, 0) && RoundDue(Stamp(b, ticks), Millis(t - 180000))
    ensures ticks <= run && Timed(b, run) && AtomicIterations(run)
    ensures i < j < |run| && RecoversAt(b, run, i, Up) && RecoversAt(b, run, j, Up)
    ensures run[i].at == t - 39000 && run[j].at == t + 64000
  {
    BeforeRollover(t, 180000);
    BeforeRollover(t, 120000);
    BeforeRollover(t, 60000);
    var third := ThreeRounds(b, ticks, t - 180000);
    var zero := HeldUp(b, third, t);
    i := |third| + 2;
    run, j := ThirdAtLast(b, zero, t, ROUND_MS, i);
  }

  // From boot to rest: an address after three seconds, and a round that is answered.
  const ONLINE: seq<Tick> := [Tick(3000, Radio(StaGotIp))]
  const ANSWER: seq<Tick> := [Tick(5000, PingSuccess(Up)), Tick(5000, PingEnd(Up))]

  lemma AnsweredState(s: State)
    requires s == Booted(Boot(0, 0))
    ensures var next := After(After(After(After(s, ONLINE), At(3000, PROBED)), ANSWER), At(5000, PROBED));
            Missed(next, 0) && next.link.uplinkReady && !next.health.up.running && next.health.lastRoundMs == 3000
  {
    var s1 := After(s, ONLINE);
    assert s1 == Next(s, 3000, Radio(StaGotIp));
    var s2 := After(s1, At(3000, PROBED));
    ThreeSteps(s1, 3000, PROBED[0], PROBED[1], PROBED[2]);
    assert s2.health.up.running && s2.health.lastRoundMs == 3000 && s2.link.uplinkReady;
    var s3 := After(s2, ANSWER);
    assert ANSWER[1..] == [Tick(5000, PingEnd(Up))] && ANSWER[1..][1..] == [];
    assert s3 == Next(Next(s2, 5000, PingSuccess(Up)), 5000, PingEnd(Up));
    ThreeSteps(s3, 5000, PROBED[0], PROBED[1], PROBED[2]);
    assert Outcome(s3.health.up) == Some(Ok);
  }

  lemma RestingRun() returns (ticks: seq<Tick>)
    ensures Resting(Boot(0, 0), ticks, 5000, 0) && Stamp(Boot(0, 0), ticks) == 3000
  {
    var b := Boot(0, 0);
    ticks := [] + ONLINE + At(3000, PROBED) + ANSWER + At(5000, PROBED);
    ExtendedBy(b, [], 3000, ONLINE);
    ExtendedBy(b, [] + ONLINE, 3000, At(3000, PROBED));
    ExtendedBy(b, [] + ONLINE + At(3000, PROBED), 5000, ANSWER);
    ExtendedBy(b, [] + ONLINE + At(3000, PROBED) + ANSWER, 5000, At(5000, PROBED));
    RunAfter(b, [], ONLINE);
    RunAfter(b, [] + ONLINE, At(3000, PROBED));
    RunAfter(b, [] + ONLINE + At(3000, PROBED), ANSWER);
    RunAfter(b, [] + ONLINE + At(3000, PROBED) + ANSWER, At(5000, PROBED));
    AnsweredState(Booted(b));
  }

  /** So there is such a run from boot, with the first rollover at its end. */
  lemma HurriedFromBoot() returns (run: seq<Tick>, i: nat, j: nat)
    ensures Timed(Boot(0, 0), run) && AtomicIterations(run)
    ensures i < j < |run| && RecoversAt(Boot(0, 0), run, i, Up) && RecoversAt(Boot(0, 0), run, j, Up)
    ensures run[j].at - run[i].at == 103000 && run[i].at < WRAP < run[j].at
  {
    var b := Boot(0, 0);
    var ticks := RestingRun();
    Later(b, ticks, 5000, 0, WRAP - 180000);
    DueAgain(3000, WRAP - 180000);
    run, i, j := HurriedAtRollover(b, ticks, WRAP);
  }
}
