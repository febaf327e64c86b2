/**
 The connection life cycle as it is meant to be: three phases over unbounded time. Its retry
 spacing and its bounds on recovery are proved here, on traces of this machine alone.
 */
module Lifecycle {
  import opened Wrappers
  import opened Clock
  import opened RouterSpec
  import opened RouterRuns

  function Pow2(k: nat): nat {
    if k == 0 then 1 else 2 * Pow2(k - 1)
  }

  // The delay of the k-th retry scheduled since the uplink last held an address.
  function Delay(k: nat): nat {
    Min(2000 * Pow2(k), 15000)
  }

  lemma {:induction false} DelayDoubles(k: nat)
    ensures Delay(k + 1) == Min(Delay(k) * 2, 15000)
    ensures 2000 <= Delay(k) <= 15000
  {
    if k > 0 {
      DelayDoubles(k - 1);
    }
  }

  datatype Phase = Attempting(since: nat, quietSince: Option<nat>) | Online | Waiting(scheduled: nat, due: nat)

  // `failures` counts retries scheduled since the last address, `begun` the attempts started.
  datatype Cycle = Cycle(phase: Phase, failures: nat, begun: nat)

  function Initial(b: Boot): Cycle {
    Cycle(Attempting(b.attemptAt, None), 0, 1)
  }

  function BackedOff(r: Cycle, t: nat): Cycle {
    r.(phase := Waiting(t, t + Delay(r.failures)), failures := r.failures + 1)
  }

  // When the driver is taken to have gone quiet: a disconnect in a millisecond that reads zero is not
  // noted, so only the deadline ends its attempt.
  function QuietFrom(t: nat): Option<nat> {
    if Millis(t) == 0 then None else Some(t)
  }

  // `recovers` says that this step is the reachability recovery giving the link up.
  function Advance(r: Cycle, t: nat, e: Step, recovers: bool): Cycle {
    match (e, r.phase)
    case (Radio(StaGotIp), _) => r.(phase := Online, failures := 0)
    case (Radio(StaConnected), Attempting(since, _)) => r.(phase := Attempting(since, None))
    case (Radio(StaDropped(_)), Attempting(since, _)) => r.(phase := Attempting(since, QuietFrom(t)))
    case (Radio(StaDropped(_)), _) => BackedOff(r, t)
    case (RecoverUplink, Online) => if recovers then BackedOff(r, t) else r
    case (CheckDeadline, Attempting(since, quiet)) =>
      if t >= since + ATTEMPT_TIMEOUT_MS || (quiet.Some? && t >= quiet.value + ATTEMPT_QUIET_MS)
      then BackedOff(r, t) else r
    case (CheckReconnect, Waiting(_, due)) =>
      if t >= due then r.(phase := Attempting(t, None), begun := r.begun + 1) else r
    case _ => r
  }

  // ---- Traces ----------------------------------------------------------------

  // From index n on and up to the time `until`, r[i] is the machine before tick i, for some choice of
  // when recovery gives the link up.
  ghost predicate Behaves(b: Boot, ticks: seq<Tick>, r: seq<Cycle>, n: nat, until: nat) {
    && Timed(b, ticks)
    && |r| == |ticks| + 1
    && forall i: nat | n <= i < |ticks| && ticks[i].at <= until :: FollowsAt(ticks, r, i)
  }

  predicate FollowsAt(ticks: seq<Tick>, r: seq<Cycle>, i: nat)
    requires i < |ticks| < |r|
  {
    Follows(r[i], ticks[i], r[i + 1])
  }

  predicate Follows(r: Cycle, tick: Tick, next: Cycle) {
    next == Advance(r, tick.at, tick.step, false) || next == Advance(r, tick.at, tick.step, true)
  }

  // The time of the latest tick before index n.
  function TimeBefore(b: Boot, ticks: seq<Tick>, n: nat): nat
    requires n <= |ticks|
  {
    if n == 0 then b.attemptAt else ticks[n - 1].at
  }

  predicate Begins(r: Cycle, next: Cycle) {
    next.begun > r.begun
  }

  predicate Schedules(r: Cycle, tick: Tick, next: Cycle) {
    next == BackedOff(r, tick.at)
  }

  // ---- Spacing ---------------------------------------------------------------

  lemma WaitingStep(r: Cycle, tick: Tick, next: Cycle)
    requires Follows(r, tick, next) && next.phase.Waiting?
    ensures Schedules(r, tick, next) || next == r
  {
  }

  // A retry pending at index j, but not at n, was scheduled by some tick m, and nothing since.
  lemma {:induction false} LastSchedule(b: Boot, ticks: seq<Tick>, r: seq<Cycle>, n: nat, j: nat, until: nat) returns (m: nat)
    requires Behaves(b, ticks, r, n, until) && n <= j <= |ticks| && TimeBefore(b, ticks, j) <= until
    requires r[j].phase.Waiting? && !r[n].phase.Waiting?
    ensures n <= m < j && Schedules(r[m], ticks[m], r[m + 1])
    ensures forall k | m < k <= j :: r[k] == r[j]
  {
    assert FollowsAt(ticks, r, j - 1);
    WaitingStep(r[j - 1], ticks[j - 1], r[j]);
    if Schedules(r[j - 1], ticks[j - 1], r[j]) {
      m := j - 1;
    } else {
      m := LastSchedule(b, ticks, r, n, j - 1, until);
    }
  }

  lemma BeginStep(r: Cycle, tick: Tick, next: Cycle)
    requires Follows(r, tick, next) && Begins(r, next)
    ensures r.phase.Waiting? && tick.at >= r.phase.due
    ensures next == Cycle(Attempting(tick.at, None), r.failures, r.begun + 1)
  {
  }

  /** Between two attempts lies a scheduling tick, the last one before the second attempt, and that
      attempt starts at least the delay scheduled there after it. */
  lemma Spacing(b: Boot, ticks: seq<Tick>, r: seq<Cycle>, i: nat, j: nat) returns (m: nat)
    requires i < j < |ticks| && Behaves(b, ticks, r, i, ticks[j].at)
    requires Begins(r[i], r[i + 1]) && Begins(r[j], r[j + 1])
    ensures i < m < j && Schedules(r[m], ticks[m], r[m + 1])
    ensures forall n | m < n <= j :: r[n] == r[j]
    ensures ticks[j].at >= ticks[m].at + Delay(r[m].failures)
  {
    assert FollowsAt(ticks, r, i) && FollowsAt(ticks, r, j);
    BeginStep(r[i], ticks[i], r[i + 1]);
    BeginStep(r[j], ticks[j], r[j + 1]);
    m := LastSchedule(b, ticks, r, i + 1, j, ticks[j].at);
  }

  // ---- Upper bounds ----------------------------------------------------------

  // The uplink came up, or a new attempt was started.
  predicate Renews(tick: Tick, r: Cycle, next: Cycle) {
    tick.step == Radio(StaGotIp) || Begins(r, next)
  }

  predicate RenewsAt(ticks: seq<Tick>, r: seq<Cycle>, j: nat)
    requires j < |ticks| < |r|
  {
    Renews(ticks[j], r[j], r[j + 1])
  }

  ghost predicate NothingRenews(ticks: seq<Tick>, r: seq<Cycle>, n: nat, m: nat)
    requires n <= m <= |ticks| < |r|
  {
    forall j: nat | n <= j < m :: !RenewsAt(ticks, r, j)
  }

  predicate DropsWhileWaiting(ticks: seq<Tick>, r: seq<Cycle>, j: nat)
    requires j < |ticks| < |r|
  {
    Drops(ticks[j].step) && r[j].phase.Waiting?
  }

  // From index n on and up to the time `until`, no disconnect event arrives while a retry is pending.
  ghost predicate NoDropWhileWaiting(ticks: seq<Tick>, r: seq<Cycle>, n: nat, until: nat)
    requires |ticks| < |r|
  {
    forall j: nat | n <= j < |ticks| && ticks[j].at <= until :: !DropsWhileWaiting(ticks, r, j)
  }

  lemma FirstRenewal(ticks: seq<Tick>, r: seq<Cycle>, n: nat, m: nat) returns (j: nat)
    requires n <= m <= |ticks| < |r| && !NothingRenews(ticks, r, n, m)
    ensures n <= j < m && RenewsAt(ticks, r, j) && NothingRenews(ticks, r, n, j)
  {
    j := n;
    while !RenewsAt(ticks, r, j)
      invariant n <= j < m && NothingRenews(ticks, r, n, j) && !NothingRenews(ticks, r, n, m)
      decreases m - j
    {
      j := j + 1;
    }
  }

  // Until it is renewed, the attempt `start` is either still running or waiting for a retry due no
  // later than one delay from now.
  predicate Unrenewed(start: Cycle, r: Cycle, now: nat) {
    && start.phase.Attempting?
    && r.begun == start.begun
    && match r.phase
       case Attempting(since, _) => since == start.phase.since && r.failures == start.failures
       case Waiting(_, due) => due <= now + Delay(start.failures) && r.failures == start.failures + 1
       case Online => false
  }

  lemma UnrenewedStep(start: Cycle, r: Cycle, now: nat, tick: Tick, next: Cycle)
    requires Unrenewed(start, r, now) && now <= tick.at
    requires Follows(r, tick, next) && !Renews(tick, r, next)
    requires !(Drops(tick.step) && r.phase.Waiting?)
    ensures Unrenewed(start, next, tick.at)
  {
  }

  lemma WaitStep(r: Cycle, tick: Tick, next: Cycle)
    requires r.phase.Waiting? && Follows(r, tick, next) && !Renews(tick, r, next)
    requires !Drops(tick.step)
    ensures next == r
  {
  }

  lemma {:induction false} KeepsCycling(b: Boot, ticks: seq<Tick>, r: seq<Cycle>, n: nat, m: nat, until: nat)
    requires Behaves(b, ticks, r, n, until) && NoDropWhileWaiting(ticks, r, n, until)
    requires n <= m <= |ticks| && TimeBefore(b, ticks, m) <= until && NothingRenews(ticks, r, n, m)
    requires r[n].phase.Attempting?
    ensures Unrenewed(r[n], r[m], TimeBefore(b, ticks, m))
    decreases m - n
  {
    if m > n {
      KeepsCycling(b, ticks, r, n, m - 1, until);
      assert FollowsAt(ticks, r, m - 1) && !RenewsAt(ticks, r, m - 1) && !DropsWhileWaiting(ticks, r, m - 1);
      UnrenewedStep(r[n], r[m - 1], TimeBefore(b, ticks, m - 1), ticks[m - 1], r[m]);
    }
  }

  lemma {:induction false} KeepsWaiting(b: Boot, ticks: seq<Tick>, r: seq<Cycle>, n: nat, m: nat, until: nat)
    requires Behaves(b, ticks, r, n, until) && NoDropWhileWaiting(ticks, r, n, until)
    requires n <= m <= |ticks| && TimeBefore(b, ticks, m) <= until && NothingRenews(ticks, r, n, m)
    requires r[n].phase.Waiting?
    ensures r[m] == r[n]
    decreases m - n
  {
    if m > n {
      KeepsWaiting(b, ticks, r, n, m - 1, until);
      assert FollowsAt(ticks, r, m - 1) && !RenewsAt(ticks, r, m - 1) && !DropsWhileWaiting(ticks, r, m - 1);
      WaitStep(r[m - 1], ticks[m - 1], r[m]);
    }
  }

  // The tick before index n started an attempt, or n == 0 and setup() did.
  predicate JustBegan(b: Boot, ticks: seq<Tick>, r: seq<Cycle>, n: nat)
    requires n <= |ticks| < |r|
  {
    r[n].phase == Attempting(TimeBefore(b, ticks, n), None)
  }

  lemma GivesUp(start: Cycle, r: Cycle, now: nat, tick: Tick, next: Cycle)
    requires Unrenewed(start, r, now) && now <= tick.at
    requires Follows(r, tick, next) && tick.step == CheckDeadline
    requires tick.at >= start.phase.since + ATTEMPT_TIMEOUT_MS
    ensures next.phase.Waiting? && next.phase.due <= tick.at + Delay(start.failures)
  {
  }

  // An unrenewed attempt is given up by a deadline check past its deadline, and retried by a
  // retry check one delay later.
  lemma RetryFires(b: Boot, ticks: seq<Tick>, r: seq<Cycle>, n: nat, d: nat, j: nat, until: nat)
    requires Behaves(b, ticks, r, n, until) && NoDropWhileWaiting(ticks, r, n, until)
    requires n <= d < j < |ticks| && ticks[j].at <= until && NothingRenews(ticks, r, n, j)
    requires JustBegan(b, ticks, r, n)
    requires ticks[d].step == CheckDeadline && ticks[d].at >= TimeBefore(b, ticks, n) + ATTEMPT_TIMEOUT_MS
    requires ticks[j].step == CheckReconnect && ticks[j].at >= ticks[d].at + Delay(r[n].failures)
    ensures Begins(r[j], r[j + 1])
  {
    KeepsCycling(b, ticks, r, n, d, until);
    assert FollowsAt(ticks, r, d) && FollowsAt(ticks, r, j);
    GivesUp(r[n], r[d], TimeBefore(b, ticks, d), ticks[d], r[d + 1]);
    KeepsWaiting(b, ticks, r, d + 1, j, until);
  }

  // Some deadline check comes after the attempt's deadline, and some retry check one delay later.
  lemma ChecksCome(b: Boot, ticks: seq<Tick>, failures: nat, n: nat, gap: nat, until: nat) returns (d: nat, k: nat)
    requires Timed(b, ticks) && n <= |ticks| && LoopsEvery(ticks, gap, TimeBefore(b, ticks, n), until)
    requires TimeBefore(b, ticks, n) + ATTEMPT_TIMEOUT_MS + Delay(failures) + 2 * gap <= until
    ensures n <= d < k < |ticks| && ticks[d].step == CheckDeadline && ticks[k].step == CheckReconnect
    ensures ticks[d].at >= TimeBefore(b, ticks, n) + ATTEMPT_TIMEOUT_MS && ticks[k].at >= ticks[d].at + Delay(failures)
    ensures ticks[k].at <= TimeBefore(b, ticks, n) + ATTEMPT_TIMEOUT_MS + Delay(failures) + 2 * gap
  {
    var giveUp := TimeBefore(b, ticks, n) + ATTEMPT_TIMEOUT_MS;
    DelayDoubles(failures);
    assert RunsWithin(ticks, Deadline, giveUp, gap);
    d :| 0 <= d < |ticks| && giveUp <= ticks[d].at <= giveUp + gap && IsSegment(ticks[d].step, Deadline);
    var due := ticks[d].at + Delay(failures);
    assert RunsWithin(ticks, Reconnecting, due, gap);
    k :| 0 <= k < |ticks| && due <= ticks[k].at <= due + gap && IsSegment(ticks[k].step, Reconnecting);
  }

  lemma RenewedOnce(b: Boot, ticks: seq<Tick>, r: seq<Cycle>, n: nat, j: nat, until: nat)
    requires Behaves(b, ticks, r, n, until) && NoDropWhileWaiting(ticks, r, n, until)
    requires n <= j < |ticks| && ticks[j].at <= until && JustBegan(b, ticks, r, n)
    requires NothingRenews(ticks, r, n, j) && RenewsAt(ticks, r, j) && ticks[j].step != Radio(StaGotIp)
    ensures JustBegan(b, ticks, r, j + 1)
    ensures r[j + 1].failures == r[n].failures + 1 && r[j + 1].begun == r[n].begun + 1
  {
    KeepsCycling(b, ticks, r, n, j, until);
    assert FollowsAt(ticks, r, j);
    BeginStep(r[j], ticks[j], r[j + 1]);
  }

  /** An attempt that starts with `failures` retries behind it is followed, within its deadline, its
      backoff and two loop gaps, by an address or by the next attempt, and in the latter case
      exactly one more retry has been counted. */
  lemma AttemptRenewed(b: Boot, ticks: seq<Tick>, r: seq<Cycle>, n: nat, gap: nat, until: nat) returns (j: nat)
    requires Behaves(b, ticks, r, n, until) && NoDropWhileWaiting(ticks, r, n, until)
    requires n <= |ticks| && JustBegan(b, ticks, r, n)
    requires LoopsEvery(ticks, gap, TimeBefore(b, ticks, n), until)
    requires TimeBefore(b, ticks, n) + ATTEMPT_TIMEOUT_MS + Delay(r[n].failures) + 2 * gap <= until
    ensures n <= j < |ticks| && RenewsAt(ticks, r, j)
    ensures ticks[j].at <= TimeBefore(b, ticks, n) + ATTEMPT_TIMEOUT_MS + Delay(r[n].failures) + 2 * gap
    ensures ticks[j].step != Radio(StaGotIp) ==>
              && JustBegan(b, ticks, r, j + 1)
              && r[j + 1].failures == r[n].failures + 1
              && r[j + 1].begun == r[n].begun + 1
  {
    var d, k := ChecksCome(b, ticks, r[n].failures, n, gap, until);
    if NothingRenews(ticks, r, n, k) {
      RetryFires(b, ticks, r, n, d, k, until);
      assert RenewsAt(ticks, r, k);
    }
    j := FirstRenewal(ticks, r, n, k + 1);
    if ticks[j].step != Radio(StaGotIp) {
      RenewedOnce(b, ticks, r, n, j, until);
    }
  }

  /** A pending retry that no disconnect event postpones any more is made, unless an address arrives
      first, when it is due and within one loop gap. */
  lemma RetryMade(b: Boot, ticks: seq<Tick>, r: seq<Cycle>, n: nat, gap: nat, until: nat) returns (j: nat)
    requires Behaves(b, ticks, r, n, until) && n <= |ticks| && NoDropWhileWaiting(ticks, r, n, until)
    requires r[n].phase.Waiting? && r[n].phase.due <= TimeBefore(b, ticks, n) + BACKOFF_MAX_MS
    requires LoopsEvery(ticks, gap, TimeBefore(b, ticks, n), until)
    requires TimeBefore(b, ticks, n) + BACKOFF_MAX_MS + gap <= until
    ensures n <= j < |ticks| && RenewsAt(ticks, r, j)
    ensures ticks[j].at <= TimeBefore(b, ticks, n) + BACKOFF_MAX_MS + gap
  {
    var due := TimeBefore(b, ticks, n) + BACKOFF_MAX_MS;
    assert RunsWithin(ticks, Reconnecting, due, gap);
    var k :| 0 <= k < |ticks| && due <= ticks[k].at <= due + gap && IsSegment(ticks[k].step, Reconnecting);
    if NothingRenews(ticks, r, n, k) {
      KeepsWaiting(b, ticks, r, n, k, until);
      assert FollowsAt(ticks, r, k);
      assert RenewsAt(ticks, r, k);
    }
    j := FirstRenewal(ticks, r, n, k + 1);
  }

  // An upper bound on the start of attempt k (from 0) of a board whose uplink never comes up.
  function AttemptBy(first: nat, gap: nat, k: nat): nat {
    if k == 0 then first else AttemptBy(first, gap, k - 1) + ATTEMPT_TIMEOUT_MS + Delay(k - 1) + 2 * gap
  }

  ghost predicate NeverOnline(ticks: seq<Tick>) {
    forall i | 0 <= i < |ticks| :: ticks[i].step != Radio(StaGotIp)
  }

  lemma {:induction false} NthAttempt(b: Boot, ticks: seq<Tick>, r: seq<Cycle>, gap: nat, until: nat, k: nat)
    returns (n: nat)
    requires Behaves(b, ticks, r, 0, until) && r[0] == Initial(b)
    requires NoDropWhileWaiting(ticks, r, 0, until) && NeverOnline(ticks)
    requires LoopsEvery(ticks, gap, b.attemptAt, until) && AttemptBy(b.attemptAt, gap, k) <= until
    ensures n <= |ticks| && JustBegan(b, ticks, r, n)
    ensures TimeBefore(b, ticks, n) <= AttemptBy(b.attemptAt, gap, k)
    ensures r[n].failures == k && r[n].begun == k + 1
  {
    if k == 0 {
      n := 0;
    } else {
      var m := NthAttempt(b, ticks, r, gap, until, k - 1);
      var j := AttemptRenewed(b, ticks, r, m, gap, until);
      n := j + 1;
    }
  }

  lemma NineFit(first: nat, gap: nat)
    requires gap <= 1000
    ensures AttemptBy(first, gap, 8) <= first + 265000
  {
    var k := 0;
    while k < 8
      invariant 0 <= k <= 8
      invariant AttemptBy(first, gap, k)
                <= first + k * 22000 + (if k == 0 then 0 else if k == 1 then 2000 else if k == 2 then 6000 else 14000 + 15000 * (k - 3))
      invariant Delay(k) <= if k == 0 then 2000 else if k == 1 then 4000 else if k == 2 then 8000 else 15000
    {
      DelayDoubles(k);
      DelayDoubles(k + 1);
      k := k + 1;
    }
  }
}
