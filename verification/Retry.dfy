/**
 The flags and 32-bit timestamps of the firmware refine the life cycle of module Lifecycle, so its
 spacing and bounds hold of the running router.
 */
module Retry {
  import opened Wrappers
  import opened Clock
  import opened RouterSpec
  import opened RouterRuns
  import opened Lifecycle
  import Watchdog

  // How the firmware's flags and timestamps represent the reference machine at time `now`.
  ghost predicate Represents(l: Link, r: Cycle, now: nat) {
    && l.backoffMs == Delay(r.failures)
    && l.begins == r.begun
    && match r.phase
       case Attempting(since, quiet) =>
         && l.attemptActive && !l.uplinkReady && !l.reconnectPending
         && since <= now && l.attemptStartedMs == Millis(since)
         && (match quiet
             case None => l.attemptAssociated || l.lastDisconnectMs == 0
             case Some(q) => !l.attemptAssociated && since <= q <= now && l.lastDisconnectMs == Millis(q) != 0)
       case Online => l.uplinkReady && !l.attemptActive && !l.reconnectPending
       case Waiting(scheduled, due) =>
         && l.reconnectPending && !l.uplinkReady && !l.attemptActive
         && scheduled <= now && scheduled < due <= scheduled + BACKOFF_MAX_MS
         && l.reconnectAtMs == Add32(Millis(scheduled), due - scheduled)
  }

  lemma BackoffRepresents(l: Link, r: Cycle, t: nat)
    requires l.backoffMs == Delay(r.failures) && l.begins == r.begun
    requires !l.uplinkReady && !l.attemptActive
    ensures Represents(ReconnectScheduled(l, t), BackedOff(r, t), t)
  {
    DelayDoubles(r.failures);
  }

  // Whether a step schedules a retry.
  predicate Reschedules(l: Link, next: Link, e: Step) {
    next.reconnectPending && (!l.reconnectPending || Drops(e))
  }

  // The life cycle that the firmware's own decisions trace out in true time, right or wrong.
  function Traced(r: Cycle, l: Link, next: Link, t: nat, e: Step): Cycle {
    if e == Radio(StaGotIp) then r.(phase := Online, failures := 0)
    else if next.begins > l.begins then r.(phase := Attempting(t, None), begun := r.begun + 1)
    else if Reschedules(l, next, e) then BackedOff(r, t)
    else if r.phase.Attempting? && Drops(e) then r.(phase := Attempting(r.phase.since, QuietFrom(t)))
    else if r.phase.Attempting? && e == Radio(StaConnected) then r.(phase := Attempting(r.phase.since, None))
    else r
  }

  function Reference(b: Boot, ticks: seq<Tick>): Cycle
    decreases |ticks|
  {
    if ticks == [] then Initial(b)
    else Traced(Reference(b, Front(ticks)), Run(b, Front(ticks)).link, Run(b, ticks).link, Last(ticks).at, Last(ticks).step)
  }

  function Trace(b: Boot, ticks: seq<Tick>): seq<Cycle> {
    seq(|ticks| + 1, i requires 0 <= i <= |ticks| => Reference(b, ticks[..i]))
  }

  // What the 32-bit clock must not do at one tick: roll over between a check of a retry and the time
  // that retry is due, or go all the way round during an attempt.
  predicate SafeTick(r: Cycle, tick: Tick) {
    match (r.phase, tick.step)
    case (Attempting(since, _), CheckDeadline) => tick.at < since + WRAP
    case (Waiting(_, due), CheckReconnect) => due / WRAP == tick.at / WRAP
    case _ => true
  }

  // It does neither from index n on, up to the time `until`.
  ghost predicate Fair(b: Boot, ticks: seq<Tick>, n: nat, until: nat) {
    Timed(b, ticks) && forall i: nat | n <= i < |ticks| && ticks[i].at <= until :: SafeAt(b, ticks, i)
  }

  ghost predicate SafeAt(b: Boot, ticks: seq<Tick>, i: nat)
    requires i < |ticks|
  {
    SafeTick(Reference(b, ticks[..i]), ticks[i])
  }

  lemma DeadlineRepresents(l: Link, r: Cycle, now: nat, t: nat)
    requires Represents(l, r, now) && r.phase.Attempting?
    requires now <= t < r.phase.since + WRAP
    ensures AttemptOver(l, t)
            <==> || t >= r.phase.since + ATTEMPT_TIMEOUT_MS
                 || (r.phase.quietSince.Some? && t >= r.phase.quietSince.value + ATTEMPT_QUIET_MS)
  {
    Elapsed(r.phase.since, t);
    if r.phase.quietSince.Some? {
      Elapsed(r.phase.quietSince.value, t);
    }
  }

  // The second half of the deadline check: nothing heard since a disconnect.
  predicate Quiet(lastDisconnectMs: Word, t: nat) {
    lastDisconnectMs != 0 && Sub32(Millis(t), lastDisconnectMs) >= ATTEMPT_QUIET_MS
  }

  /** The quiet test measures the true time since a disconnect, over a whole clock period, if and only
      if that disconnect did not fall on a millisecond that reads zero. If it did, the deadline alone
      ends the attempt. */
  lemma QuietTestExact(dropped: nat)
    ensures (forall t: nat | dropped <= t < dropped + WRAP ::
               Quiet(Millis(dropped), t) == (t >= dropped + ATTEMPT_QUIET_MS))
            <==> Millis(dropped) != 0
  {
    if Millis(dropped) == 0 {
      assert !Quiet(Millis(dropped), dropped + ATTEMPT_QUIET_MS);
    }
    forall t: nat | dropped <= t < dropped + WRAP
      ensures Sub32(Millis(t), Millis(dropped)) == t - dropped
    {
      Elapsed(dropped, t);
    }
  }

  lemma TracedEvent(s: State, r: Cycle, now: nat, t: nat, e: Step)
    requires Represents(s.link, r, now) && now <= t && e.Radio?
    ensures Represents(Next(s, t, e).link, Traced(r, s.link, Next(s, t, e).link, t, e), t)
  {
    var l := s.link;
    DelayDoubles(0);
    if e.event.StaDropped? && !l.attemptActive {
      BackoffRepresents(l.(uplinkReady := false, attemptAssociated := false, lastDisconnectMs := Millis(t)), r, t);
    }
  }

  lemma TracedRepresents(s: State, r: Cycle, now: nat, t: nat, e: Step)
    requires Represents(s.link, r, now) && now <= t
    ensures Represents(Next(s, t, e).link, Traced(r, s.link, Next(s, t, e).link, t, e), t)
  {
    var l := s.link;
    match e {
      case Radio(_) => TracedEvent(s, r, now, t, e);
      case RecoverUplink =>
        BackoffRepresents(l.(uplinkReady := false, attemptActive := false, tearDowns := l.tearDowns + 1), r, t);
      case CheckDeadline =>
        if l.attemptActive {
          BackoffRepresents(l.(attemptActive := false), r, t);
        }
      case _ =>
    }
  }

  // Where the clock does not interfere, the firmware decides as the three-phase machine does.
  lemma TracedFollows(s: State, r: Cycle, now: nat, t: nat, e: Step)
    requires Represents(s.link, r, now) && now <= t && SafeTick(r, Tick(t, e))
    ensures Traced(r, s.link, Next(s, t, e).link, t, e) == Advance(r, t, e, UplinkUnreachable(s))
  {
    match e {
      case CheckDeadline =>
        if r.phase.Attempting? {
          DeadlineRepresents(s.link, r, now, t);
        }
      case CheckReconnect =>
        if r.phase.Waiting? {
          Add32Millis(r.phase.scheduled, r.phase.due - r.phase.scheduled);
          assert Millis(t) >= Millis(r.phase.due) <==> t >= r.phase.due;
        }
      case _ =>
    }
  }

  ghost predicate RepresentsAt(b: Boot, ticks: seq<Tick>, i: nat)
    requires i <= |ticks|
  {
    Represents(Before(b, ticks, i).link, Trace(b, ticks)[i], TimeBefore(b, ticks, i))
  }

  /** In every run, whatever the clock does, the flags and timestamps represent the life cycle traced in
      true time. */
  lemma {:induction false} TraceRepresents(b: Boot, ticks: seq<Tick>, i: nat)
    requires Timed(b, ticks) && i <= |ticks|
    ensures RepresentsAt(b, ticks, i)
    decreases i
  {
    if i == 0 {
      assert ticks[..0] == [];
    } else {
      TraceRepresents(b, ticks, i - 1);
      StepAt(b, ticks, i - 1);
      TracedRepresents(Before(b, ticks, i - 1), Trace(b, ticks)[i - 1], TimeBefore(b, ticks, i - 1),
                       ticks[i - 1].at, ticks[i - 1].step);
    }
  }

  /** And that life cycle is a run of the three-phase machine wherever no rollover of the clock falls
      between a check of a pending retry and the time it is due, and no attempt outlasts a clock period. */
  lemma Refines(b: Boot, ticks: seq<Tick>, n: nat, until: nat)
    requires Fair(b, ticks, n, until)
    ensures Behaves(b, ticks, Trace(b, ticks), n, until) && Trace(b, ticks)[0] == Initial(b)
    ensures forall i: nat | i <= |ticks| :: RepresentsAt(b, ticks, i)
  {
    var r := Trace(b, ticks);
    assert ticks[..0] == [];
    forall i: nat | i <= |ticks|
      ensures RepresentsAt(b, ticks, i)
    {
      TraceRepresents(b, ticks, i);
    }
    forall i: nat | n <= i < |ticks| && ticks[i].at <= until
      ensures FollowsAt(ticks, r, i)
    {
      StepAt(b, ticks, i);
      assert RepresentsAt(b, ticks, i) && SafeAt(b, ticks, i);
      TracedFollows(Before(b, ticks, i), r[i], TimeBefore(b, ticks, i), ticks[i].at, ticks[i].step);
    }
  }

  // ---- What it means for the router ------------------------------------------------

  // The tick with index i calls uplink::begin().
  ghost predicate StartsAttempt(b: Boot, ticks: seq<Tick>, i: nat)
    requires i < |ticks|
  {
    Before(b, ticks, i + 1).link.begins > Before(b, ticks, i).link.begins
  }

  // The tick with index m schedules a retry.
  ghost predicate SchedulesAt(b: Boot, ticks: seq<Tick>, m: nat)
    requires m < |ticks|
  {
    && Before(b, ticks, m + 1).link.reconnectPending
    && (!Before(b, ticks, m).link.reconnectPending || Drops(ticks[m].step))
  }

  // From index n on and up to the time `until`, no disconnect event arrives while a retry is pending.
  ghost predicate NoDropWhilePending(b: Boot, ticks: seq<Tick>, n: nat, until: nat) {
    forall j: nat | n <= j < |ticks| && ticks[j].at <= until && Drops(ticks[j].step) ::
      !Before(b, ticks, j).link.reconnectPending
  }

  lemma NoDropInTrace(b: Boot, ticks: seq<Tick>, n: nat, until: nat)
    requires Fair(b, ticks, n, until) && NoDropWhilePending(b, ticks, n, until)
    ensures NoDropWhileWaiting(ticks, Trace(b, ticks), n, until)
  {
    Refines(b, ticks, n, until);
    var r := Trace(b, ticks);
    forall j: nat | n <= j < |ticks| && ticks[j].at <= until
      ensures !DropsWhileWaiting(ticks, r, j)
    {
      assert RepresentsAt(b, ticks, j);
    }
  }

  // How many retries have been scheduled since the last address.
  function Failures(b: Boot, ticks: seq<Tick>, n: nat): nat
    requires n <= |ticks|
  {
    if n == 0 || ticks[n - 1].step == Radio(StaGotIp) then 0
    else Failures(b, ticks, n - 1)
         + (if Reschedules(Before(b, ticks, n - 1).link, Before(b, ticks, n).link, ticks[n - 1].step) then 1 else 0)
  }

  /** In every run, on any clock, the backoff in force is 2000 ms doubled once for every retry scheduled
      since the last address, capped at 15000 ms: the doubling never overflows. */
  lemma {:induction false} BackoffExact(b: Boot, ticks: seq<Tick>, n: nat)
    requires n <= |ticks|
    ensures Before(b, ticks, n).link.backoffMs == Delay(Failures(b, ticks, n)) == Min(2000 * Pow2(Failures(b, ticks, n)), 15000)
    decreases n
  {
    if n == 0 {
      assert ticks[..0] == [];
    } else {
      BackoffExact(b, ticks, n - 1);
      StepAt(b, ticks, n - 1);
      AlwaysOnePhase(b, ticks[..n - 1]);
      BackoffStep(Before(b, ticks, n - 1), ticks[n - 1].at, ticks[n - 1].step, Failures(b, ticks, n - 1));
    }
  }

  lemma BackoffStep(s: State, t: nat, e: Step, k: nat)
    requires OnePhase(s.link) && s.link.backoffMs == Delay(k)
    ensures Next(s, t, e).link.backoffMs
            == if e == Radio(StaGotIp) then 2000 else if Reschedules(s.link, Next(s, t, e).link, e) then Delay(k + 1) else Delay(k)
  {
    DelayDoubles(k);
  }

  /** Retry spacing: between two calls of uplink::begin() lies a tick that schedules a retry, the last to
      do so, and the second call comes at least the backoff in force at that tick after it; that
      backoff is 2000 ms doubled once for every retry since the last address, capped at 15000 ms. */
  lemma RetrySpacing(b: Boot, ticks: seq<Tick>, i: nat, j: nat) returns (m: nat)
    requires i < j < |ticks| && Fair(b, ticks, i, ticks[j].at)
    requires StartsAttempt(b, ticks, i) && StartsAttempt(b, ticks, j)
    ensures i < m < j && SchedulesAt(b, ticks, m)
    ensures ticks[j].at >= ticks[m].at + Before(b, ticks, m).link.backoffMs
    ensures Before(b, ticks, m).link.backoffMs == Delay(Failures(b, ticks, m))
    ensures forall n | m < n <= j ::
              && Before(b, ticks, n).link.reconnectPending
              && Before(b, ticks, n).link.reconnectAtMs == Before(b, ticks, m + 1).link.reconnectAtMs
  {
    Refines(b, ticks, i, ticks[j].at);
    BeginsInTrace(b, ticks, i);
    BeginsInTrace(b, ticks, j);
    m := Spacing(b, ticks, Trace(b, ticks), i, j);
    SchedulesInTrace(b, ticks, m);
    BackoffExact(b, ticks, m);
    BackoffTraced(b, ticks, m);
    PendingThroughout(b, ticks, m, j);
  }

  lemma BackoffTraced(b: Boot, ticks: seq<Tick>, m: nat)
    requires Timed(b, ticks) && m <= |ticks|
    ensures Delay(Trace(b, ticks)[m].failures) == Before(b, ticks, m).link.backoffMs
  {
    TraceRepresents(b, ticks, m);
  }

  lemma PendingThroughout(b: Boot, ticks: seq<Tick>, m: nat, j: nat)
    requires Timed(b, ticks) && m < j <= |ticks| && Trace(b, ticks)[m + 1].phase.Waiting?
    requires forall n | m < n <= j :: Trace(b, ticks)[n] == Trace(b, ticks)[j]
    ensures forall n | m < n <= j ::
              && Before(b, ticks, n).link.reconnectPending
              && Before(b, ticks, n).link.reconnectAtMs == Before(b, ticks, m + 1).link.reconnectAtMs
  {
    forall n | m < n <= j
      ensures Before(b, ticks, n).link.reconnectPending
      ensures Before(b, ticks, n).link.reconnectAtMs == Before(b, ticks, m + 1).link.reconnectAtMs
    {
      SamePending(b, ticks, m + 1, n);
    }
  }

  lemma SamePending(b: Boot, ticks: seq<Tick>, m: nat, n: nat)
    requires Timed(b, ticks) && m <= |ticks| && n <= |ticks|
    requires Trace(b, ticks)[m].phase.Waiting? && Trace(b, ticks)[n] == Trace(b, ticks)[m]
    ensures Before(b, ticks, n).link.reconnectPending
    ensures Before(b, ticks, n).link.reconnectAtMs == Before(b, ticks, m).link.reconnectAtMs
  {
    TraceRepresents(b, ticks, m);
    TraceRepresents(b, ticks, n);
  }

  lemma SchedulesInTrace(b: Boot, ticks: seq<Tick>, m: nat)
    requires Timed(b, ticks) && m < |ticks| && Schedules(Trace(b, ticks)[m], ticks[m], Trace(b, ticks)[m + 1])
    ensures SchedulesAt(b, ticks, m)
  {
    TraceRepresents(b, ticks, m);
    TraceRepresents(b, ticks, m + 1);
    StepAt(b, ticks, m);
  }

  lemma BeginsInTrace(b: Boot, ticks: seq<Tick>, i: nat)
    requires Timed(b, ticks) && i < |ticks|
    ensures StartsAttempt(b, ticks, i) <==> Begins(Trace(b, ticks)[i], Trace(b, ticks)[i + 1])
  {
    TraceRepresents(b, ticks, i);
    TraceRepresents(b, ticks, i + 1);
  }

  lemma JustBegun(b: Boot, ticks: seq<Tick>, i: nat)
    requires Timed(b, ticks) && i < |ticks| && StartsAttempt(b, ticks, i)
    ensures JustBegan(b, ticks, Trace(b, ticks), i + 1)
  {
    StepAt(b, ticks, i);
    BeginsOnlyWhenIdle(b, ticks, i);
  }

  /** Bounded recovery: every attempt is followed by an address or by another attempt within
      20000 + 15000 ms and two loop gaps. */
  lemma AttemptBounded(b: Boot, ticks: seq<Tick>, i: nat, gap: nat, until: nat) returns (j: nat)
    requires i < |ticks| && StartsAttempt(b, ticks, i)
    requires Fair(b, ticks, i + 1, until) && NoDropWhilePending(b, ticks, i + 1, until)
    requires LoopsEvery(ticks, gap, ticks[i].at, until)
    requires ticks[i].at + ATTEMPT_TIMEOUT_MS + BACKOFF_MAX_MS + 2 * gap <= until
    ensures i < j < |ticks|
    ensures ticks[j].step == Radio(StaGotIp) || StartsAttempt(b, ticks, j)
    ensures ticks[j].at <= ticks[i].at + ATTEMPT_TIMEOUT_MS + BACKOFF_MAX_MS + 2 * gap
  {
    Refines(b, ticks, i + 1, until);
    NoDropInTrace(b, ticks, i + 1, until);
    JustBegun(b, ticks, i);
    var r := Trace(b, ticks);
    DelayDoubles(r[i + 1].failures);
    j := AttemptRenewed(b, ticks, r, i + 1, gap, until);
    BeginsInTrace(b, ticks, j);
  }

  /** Never stranded: with a retry pending, and no disconnect event postponing it any more, an address
      or the next attempt follows within 15000 ms and one loop gap. */
  lemma PendingBounded(b: Boot, ticks: seq<Tick>, n: nat, gap: nat, until: nat) returns (j: nat)
    requires n <= |ticks| && Before(b, ticks, n).link.reconnectPending
    requires Fair(b, ticks, n, until) && NoDropWhilePending(b, ticks, n, until)
    requires LoopsEvery(ticks, gap, TimeBefore(b, ticks, n), until)
    requires TimeBefore(b, ticks, n) + BACKOFF_MAX_MS + gap <= until
    ensures n <= j < |ticks|
    ensures ticks[j].step == Radio(StaGotIp) || StartsAttempt(b, ticks, j)
    ensures ticks[j].at <= TimeBefore(b, ticks, n) + BACKOFF_MAX_MS + gap
  {
    NoDropInTrace(b, ticks, n, until);
    Refines(b, ticks, n, until);
    assert RepresentsAt(b, ticks, n);
    j := RetryMade(b, ticks, Trace(b, ticks), n, gap, until);
    BeginsInTrace(b, ticks, j);
  }

  // ---- When the clock does roll over -------------------------------------------

  // The true time for which that tick schedules it.
  function DueTime(b: Boot, ticks: seq<Tick>, m: nat): nat
    requires m < |ticks|
  {
    ticks[m].at + Before(b, ticks, m).link.backoffMs
  }

  // Nothing settles or postpones the retry scheduled at tick m before index n.
  predicate Unsettled(ticks: seq<Tick>, m: nat, n: nat) {
    forall j | m < j < n && j < |ticks| :: ticks[j].step != Radio(StaGotIp) && !Drops(ticks[j].step)
  }

  ghost predicate NoAttemptBetween(b: Boot, ticks: seq<Tick>, m: nat, n: nat)
    requires n <= |ticks|
  {
    forall j: nat | m < j < n :: !StartsAttempt(b, ticks, j)
  }

  // The retry scheduled at tick m is pending at index n.
  ghost predicate PendingFrom(b: Boot, ticks: seq<Tick>, m: nat, n: nat)
    requires m < |ticks| && n <= |ticks|
  {
    && Before(b, ticks, n).link.reconnectPending
    && Before(b, ticks, n).link.reconnectAtMs == Millis(DueTime(b, ticks, m))
  }

  lemma ScheduledTime(b: Boot, ticks: seq<Tick>, m: nat)
    requires m < |ticks| && SchedulesAt(b, ticks, m)
    ensures PendingFrom(b, ticks, m, m + 1)
  {
    StepAt(b, ticks, m);
    AlwaysOnePhase(b, ticks[..m]);
    Add32Millis(ticks[m].at, Before(b, ticks, m).link.backoffMs);
  }

  lemma PendingStep(l: Link, s: State, t: nat, e: Step)
    requires s.link == l && l.reconnectPending && OnePhase(l)
    requires e != Radio(StaGotIp) && !Drops(e)
    ensures var next := Next(s, t, e).link;
            if e == CheckReconnect && Millis(t) >= l.reconnectAtMs then next.begins == l.begins + 1
            else && next.begins == l.begins && next.reconnectPending && next.reconnectAtMs == l.reconnectAtMs
                 && next.backoffMs == l.backoffMs
  {
  }

  lemma {:induction false} StillPending(b: Boot, ticks: seq<Tick>, m: nat, n: nat)
    requires m < n <= |ticks| && SchedulesAt(b, ticks, m)
    requires Unsettled(ticks, m, n) && NoAttemptBetween(b, ticks, m, n)
    ensures PendingFrom(b, ticks, m, n)
    decreases n
  {
    if n == m + 1 {
      ScheduledTime(b, ticks, m);
    } else {
      StillPending(b, ticks, m, n - 1);
      StepAt(b, ticks, n - 1);
      AlwaysOnePhase(b, ticks[..n - 1]);
      assert !StartsAttempt(b, ticks, n - 1);
      PendingStep(Before(b, ticks, n - 1).link, Before(b, ticks, n - 1), ticks[n - 1].at, ticks[n - 1].step);
    }
  }

  /** What the retry check decides, at any time: the first check whose clock reading is no less than
      that of the due time makes the retry. */
  lemma RetryTestExact(b: Boot, ticks: seq<Tick>, m: nat, n: nat)
    requires m < n < |ticks| && SchedulesAt(b, ticks, m)
    requires Unsettled(ticks, m, n + 1) && NoAttemptBetween(b, ticks, m, n)
    ensures StartsAttempt(b, ticks, n)
            <==> ticks[n].step == CheckReconnect && Millis(ticks[n].at) >= Millis(DueTime(b, ticks, m))
  {
    StillPending(b, ticks, m, n);
    StepAt(b, ticks, n);
    AlwaysOnePhase(b, ticks[..n]);
    PendingStep(Before(b, ticks, n).link, Before(b, ticks, n), ticks[n].at, ticks[n].step);
  }

  // A retry check falls into the time between `due` and the next rollover.
  predicate ChecksInTime(ticks: seq<Tick>, j: nat, due: nat)
    requires j < |ticks|
  {
    ticks[j].step == CheckReconnect && due <= ticks[j].at && ticks[j].at / WRAP == due / WRAP
  }

  /** A retry scheduled and due before a rollover is made, at any time up to a full clock period after it
      was due, if and only if some check of it comes between the due time and the rollover. If
      loop() is held up for just that long, the board stays offline. */
  lemma RetryBeforeRolloverExact(b: Boot, ticks: seq<Tick>, m: nat)
    requires Timed(b, ticks) && m < |ticks| && SchedulesAt(b, ticks, m) && Unsettled(ticks, m, |ticks|)
    requires ticks[m].at / WRAP == DueTime(b, ticks, m) / WRAP
    requires forall j | m < j < |ticks| :: ticks[j].at < DueTime(b, ticks, m) + WRAP
    ensures (exists j: nat :: m < j < |ticks| && StartsAttempt(b, ticks, j))
            <==> exists j: nat :: m < j < |ticks| && ChecksInTime(ticks, j, DueTime(b, ticks, m))
  {
    var due := DueTime(b, ticks, m);
    forall j: nat | m < j < |ticks| && NoAttemptBetween(b, ticks, m, j)
      ensures StartsAttempt(b, ticks, j) <==> ChecksInTime(ticks, j, due)
    {
      RetryTestExact(b, ticks, m, j);
      assert ticks[m].at <= ticks[j].at;
      SamePeriod(ticks[m].at, due, ticks[j].at);
    }
    if j: nat :| m < j < |ticks| && StartsAttempt(b, ticks, j) {
      var k := FirstAttempt(b, ticks, m, j);
      assert ChecksInTime(ticks, k, due);
    }
    if j: nat :| m < j < |ticks| && ChecksInTime(ticks, j, due) && !StartsAttempt(b, ticks, j) {
      assert !NoAttemptBetween(b, ticks, m, j);
    }
  }

  lemma SamePeriod(scheduled: nat, due: nat, t: nat)
    requires scheduled <= t < due + WRAP && scheduled / WRAP == due / WRAP
    ensures Millis(t) >= Millis(due) <==> due <= t && t / WRAP == due / WRAP
  {
    if t / WRAP != due / WRAP {
      assert t / WRAP == due / WRAP + 1;
    }
  }

  lemma {:induction false} FirstAttempt(b: Boot, ticks: seq<Tick>, m: nat, j: nat) returns (k: nat)
    requires m < j < |ticks| && StartsAttempt(b, ticks, j)
    ensures m < k <= j && StartsAttempt(b, ticks, k) && NoAttemptBetween(b, ticks, m, k)
    decreases j
  {
    if NoAttemptBetween(b, ticks, m, j) {
      k := j;
    } else {
      var i: nat :| m < i < j && StartsAttempt(b, ticks, i);
      k := FirstAttempt(b, ticks, m, i);
    }
  }

  /** A retry scheduled before a rollover and due after it is made too early: by the first check,
      with none of its delay served, if that check comes before the rollover. */
  lemma RetryAcrossRolloverEarly(b: Boot, ticks: seq<Tick>, m: nat, n: nat)
    requires Timed(b, ticks) && m < n < |ticks| && SchedulesAt(b, ticks, m)
    requires Unsettled(ticks, m, n + 1) && ticks[n].step == CheckReconnect
    requires forall j | m < j < n :: ticks[j].step != CheckReconnect
    requires ticks[m].at / WRAP == ticks[n].at / WRAP < DueTime(b, ticks, m) / WRAP
    ensures StartsAttempt(b, ticks, n) && ticks[n].at < DueTime(b, ticks, m)
  {
    forall j: nat | m < j < n
      ensures !StartsAttempt(b, ticks, j)
    {
      StepAt(b, ticks, j);
    }
    RetryTestExact(b, ticks, m, n);
    assert ticks[m].at <= ticks[n].at;
    PastRollover(ticks[m].at, Before(b, ticks, m).link.backoffMs, ticks[n].at);
  }

  // ---- When an attempt is given up --------------------------------------------------

  // The attempt that tick i started is still running at index n.
  ghost predicate RunningFrom(b: Boot, ticks: seq<Tick>, i: nat, n: nat)
    requires n <= |ticks|
  {
    i < n && StartsAttempt(b, ticks, i) && forall k: nat | i < k <= n :: Before(b, ticks, k).link.attemptActive
  }

  // Since tick i, tick k is the last disconnect before index n, with no association after it.
  predicate QuietSince(ticks: seq<Tick>, i: nat, k: nat, n: nat) {
    && i < k < n <= |ticks| && Drops(ticks[k].step)
    && forall l | k < l < n :: !Drops(ticks[l].step) && ticks[l].step != Radio(StaConnected)
  }

  // Since tick i, the radio associated at tick k, with no disconnect after it.
  predicate AssociatedSince(ticks: seq<Tick>, i: nat, k: nat, n: nat) {
    && i < k < n <= |ticks| && ticks[k].step == Radio(StaConnected)
    && forall l | k < l < n :: !Drops(ticks[l].step)
  }

  lemma AttemptStep(s: State, t: nat, e: Step)
    requires OnePhase(s.link) && s.link.attemptActive && Next(s, t, e).link.attemptActive
    ensures var l, next := s.link, Next(s, t, e).link;
            && next.attemptStartedMs == l.attemptStartedMs
            && (if Drops(e) then !next.attemptAssociated && next.lastDisconnectMs == Millis(t)
                else if e == Radio(StaConnected) then next.attemptAssociated
                else next.attemptAssociated == l.attemptAssociated && next.lastDisconnectMs == l.lastDisconnectMs)
  {
  }

  lemma {:induction false} AttemptTracked(b: Boot, ticks: seq<Tick>, i: nat, n: nat)
    requires n <= |ticks| && RunningFrom(b, ticks, i, n)
    ensures Before(b, ticks, n).link.attemptStartedMs == Millis(ticks[i].at)
    ensures forall k: nat | QuietSince(ticks, i, k, n) ::
              !Before(b, ticks, n).link.attemptAssociated && Before(b, ticks, n).link.lastDisconnectMs == Millis(ticks[k].at)
    ensures Before(b, ticks, n).link.attemptAssociated || Before(b, ticks, n).link.lastDisconnectMs == 0
            || exists k: nat :: QuietSince(ticks, i, k, n)
    ensures Before(b, ticks, n).link.attemptAssociated ==> exists k: nat :: AssociatedSince(ticks, i, k, n)
    decreases n
  {
    StepAt(b, ticks, n - 1);
    if n == i + 1 {
      BeginsOnlyWhenIdle(b, ticks, i);
    } else {
      AttemptTracked(b, ticks, i, n - 1);
      AlwaysOnePhase(b, ticks[..n - 1]);
      var e := ticks[n - 1].step;
      AttemptStep(Before(b, ticks, n - 1), ticks[n - 1].at, e);
      if Drops(e) {
        assert QuietSince(ticks, i, n - 1, n);
      } else if e == Radio(StaConnected) {
        assert AssociatedSince(ticks, i, n - 1, n);
      } else {
        var m := n - 1;
        forall k: nat
          ensures QuietSince(ticks, i, k, n) <==> QuietSince(ticks, i, k, m)
        {
        }
        if k: nat :| QuietSince(ticks, i, k, m) {
          assert QuietSince(ticks, i, k, n);
        }
        if k: nat :| AssociatedSince(ticks, i, k, m) {
          assert AssociatedSince(ticks, i, k, n);
        }
      }
    }
  }

  // The disconnect at tick k, not at a zero reading, has been followed by two quiet seconds.
  predicate QuietLong(ticks: seq<Tick>, i: nat, k: nat, n: nat) {
    QuietSince(ticks, i, k, n) && n < |ticks| && Millis(ticks[k].at) != 0 && (ticks[n].at - ticks[k].at) % WRAP >= 2000
  }

  /** Exactly when a deadline check gives a running attempt up, on any clock: 20000 ms after it was started,
      or 2000 ms after a disconnect with nothing heard since. Otherwise it goes on. */
  lemma GivenUpExact(b: Boot, ticks: seq<Tick>, i: nat, n: nat)
    requires Timed(b, ticks) && n < |ticks| && RunningFrom(b, ticks, i, n) && ticks[n].step == CheckDeadline
    ensures SchedulesAt(b, ticks, n)
            <==> (ticks[n].at - ticks[i].at) % WRAP >= 20000 || exists k: nat :: QuietLong(ticks, i, k, n)
    ensures SchedulesAt(b, ticks, n) <==> !Before(b, ticks, n + 1).link.attemptActive
  {
    AttemptTracked(b, ticks, i, n);
    StepAt(b, ticks, n);
    AlwaysOnePhase(b, ticks[..n]);
    Elapsed(ticks[i].at, ticks[n].at);
    var l := Before(b, ticks, n).link;
    forall k: nat | QuietSince(ticks, i, k, n)
      ensures Sub32(Millis(ticks[n].at), l.lastDisconnectMs) == (ticks[n].at - ticks[k].at) % WRAP
    {
      Elapsed(ticks[k].at, ticks[n].at);
    }
    if !l.attemptAssociated && l.lastDisconnectMs != 0 {
      var k: nat :| QuietSince(ticks, i, k, n);
      assert QuietLong(ticks, i, k, n) <==> Sub32(Millis(ticks[n].at), l.lastDisconnectMs) >= 2000;
    }
  }

  // ---- Disconnects while a retry is pending --------------------------------------

  // No address arrives between tick m and index n.
  predicate NoAddress(ticks: seq<Tick>, m: nat, n: nat) {
    forall j | m < j < n && j < |ticks| :: ticks[j].step != Radio(StaGotIp)
  }

  // Tick k is the last before index j to schedule a retry.
  ghost predicate LatestAt(b: Boot, ticks: seq<Tick>, k: nat, j: nat)
    requires j <= |ticks|
  {
    k < j && SchedulesAt(b, ticks, k) && forall l: nat | k < l < j :: !SchedulesAt(b, ticks, l)
  }

  lemma WaitingOn(s: State, t: nat, e: Step)
    requires OnePhase(s.link) && s.link.reconnectPending && e != Radio(StaGotIp)
    ensures Next(s, t, e).link.reconnectPending || Next(s, t, e).link.begins > s.link.begins
    ensures Drops(e) ==> Next(s, t, e).link.reconnectPending
  {
  }

  lemma {:induction false} StillWaiting(b: Boot, ticks: seq<Tick>, m: nat, n: nat)
    requires m < n <= |ticks| && SchedulesAt(b, ticks, m)
    requires NoAddress(ticks, m, n) && NoAttemptBetween(b, ticks, m, n)
    ensures Before(b, ticks, n).link.reconnectPending
    ensures LatestAt(b, ticks, m, n) ==> Unsettled(ticks, m, n)
    decreases n
  {
    if n > m + 1 {
      StillWaiting(b, ticks, m, n - 1);
      StepAt(b, ticks, n - 1);
      AlwaysOnePhase(b, ticks[..n - 1]);
      WaitingOn(Before(b, ticks, n - 1), ticks[n - 1].at, ticks[n - 1].step);
      assert !StartsAttempt(b, ticks, n - 1);
      if LatestAt(b, ticks, m, n) {
        assert LatestAt(b, ticks, m, n - 1) && !SchedulesAt(b, ticks, n - 1);
      }
    }
  }

  lemma PendingBefore(s: State, t: nat, e: Step)
    requires OnePhase(s.link) && Next(s, t, e).link.reconnectPending && !Reschedules(s.link, Next(s, t, e).link, e)
    ensures s.link.reconnectPending && e != Radio(StaGotIp) && Next(s, t, e).link.begins == s.link.begins
  {
  }

  lemma PendingEarlier(b: Boot, ticks: seq<Tick>, n: nat)
    requires n < |ticks| && Before(b, ticks, n + 1).link.reconnectPending && !SchedulesAt(b, ticks, n)
    ensures Before(b, ticks, n).link.reconnectPending
    ensures ticks[n].step != Radio(StaGotIp) && !Drops(ticks[n].step) && !StartsAttempt(b, ticks, n)
  {
    StepAt(b, ticks, n);
    AlwaysOnePhase(b, ticks[..n]);
    PendingBefore(Before(b, ticks, n), ticks[n].at, ticks[n].step);
  }

  lemma {:induction false} LatestSchedule(b: Boot, ticks: seq<Tick>, n: nat) returns (k: nat)
    requires n <= |ticks| && Before(b, ticks, n).link.reconnectPending
    ensures LatestAt(b, ticks, k, n) && Unsettled(ticks, k, n) && NoAttemptBetween(b, ticks, k, n)
    decreases n
  {
    assert ticks[..0] == [];
    if SchedulesAt(b, ticks, n - 1) {
      k := n - 1;
    } else {
      PendingEarlier(b, ticks, n - 1);
      k := LatestSchedule(b, ticks, n - 1);
    }
  }

  // The check at index j comes when the latest retry scheduled is due, in the same clock period.
  ghost predicate OverdueAt(b: Boot, ticks: seq<Tick>, j: nat)
    requires j < |ticks|
  {
    ticks[j].step == CheckReconnect && exists k: nat :: LatestAt(b, ticks, k, j) && ticks[j].at >= DueTime(b, ticks, k)
  }

  // If no attempt has been made since tick m, no rollover falls between a check at index j and the time
  // the latest retry is due.
  ghost predicate InPeriod(b: Boot, ticks: seq<Tick>, m: nat, j: nat)
    requires j < |ticks|
  {
    ticks[j].step == CheckReconnect && NoAttemptBetween(b, ticks, m, j) ==>
      forall k: nat | LatestAt(b, ticks, k, j) :: DueTime(b, ticks, k) / WRAP == ticks[j].at / WRAP
  }

  lemma OverdueStarts(b: Boot, ticks: seq<Tick>, k: nat, j: nat)
    requires j < |ticks| && LatestAt(b, ticks, k, j) && ticks[j].step == CheckReconnect
    requires DueTime(b, ticks, k) / WRAP == ticks[j].at / WRAP
    requires NoAddress(ticks, k, j) && NoAttemptBetween(b, ticks, k, j)
    ensures StartsAttempt(b, ticks, j) <==> ticks[j].at >= DueTime(b, ticks, k)
  {
    StillWaiting(b, ticks, k, j);
    RetryTestExact(b, ticks, k, j);
  }

  /** Starvation: every disconnect event that arrives while a retry is pending postpones it, and as long as
      no address arrives an attempt is made if and only if some retry check comes when the retry
      scheduled last is due. */
  lemma RetryStarvedExact(b: Boot, ticks: seq<Tick>, m: nat)
    requires m < |ticks| && SchedulesAt(b, ticks, m) && NoAddress(ticks, m, |ticks|)
    requires forall j: nat | m < j < |ticks| :: InPeriod(b, ticks, m, j)
    ensures (exists j: nat :: m < j < |ticks| && StartsAttempt(b, ticks, j))
            <==> exists j: nat :: m < j < |ticks| && OverdueAt(b, ticks, j)
  {
    if i: nat :| m < i < |ticks| && StartsAttempt(b, ticks, i) {
      var j := FirstAttempt(b, ticks, m, i);
      BeginsOnlyWhenIdle(b, ticks, j);
      var k := LatestSchedule(b, ticks, j);
      assert k >= m && InPeriod(b, ticks, m, j);
      OverdueStarts(b, ticks, k, j);
      assert OverdueAt(b, ticks, j);
    }
    if j: nat :| m < j < |ticks| && OverdueAt(b, ticks, j) {
      var k: nat :| LatestAt(b, ticks, k, j) && ticks[j].at >= DueTime(b, ticks, k);
      assert k >= m && InPeriod(b, ticks, m, j);
      if NoAttemptBetween(b, ticks, m, j) {
        OverdueStarts(b, ticks, k, j);
      }
    }
  }

  // Each retry check after tick m comes less than the shortest delay after some tick that scheduled a
  // retry.
  ghost predicate Pestered(b: Boot, ticks: seq<Tick>, m: nat) {
    forall j: nat | m < j < |ticks| && ticks[j].step == CheckReconnect :: PesteredAt(b, ticks, m, j)
  }

  ghost predicate PesteredAt(b: Boot, ticks: seq<Tick>, m: nat, j: nat)
    requires j < |ticks|
  {
    exists l: nat :: m <= l < j && SchedulesAt(b, ticks, l) && ticks[j].at < ticks[l].at + BACKOFF_INITIAL_MS
  }

  /** So disconnect events that keep coming in less than two seconds before each check hold the retry off
      for as long as they do. */
  lemma PesteredStaysOffline(b: Boot, ticks: seq<Tick>, m: nat, n: nat)
    requires Timed(b, ticks) && m < n <= |ticks| && SchedulesAt(b, ticks, m) && NoAddress(ticks, m, |ticks|)
    requires forall j: nat | m < j < |ticks| :: InPeriod(b, ticks, m, j)
    requires Pestered(b, ticks, m)
    ensures Before(b, ticks, n).link.reconnectPending && NoAttemptBetween(b, ticks, m, n)
  {
    forall j: nat | m < j < |ticks|
      ensures !OverdueAt(b, ticks, j)
    {
      if k: nat :| LatestAt(b, ticks, k, j) && ticks[j].step == CheckReconnect {
        assert PesteredAt(b, ticks, m, j);
        var l: nat :| m <= l < j && SchedulesAt(b, ticks, l) && ticks[j].at < ticks[l].at + BACKOFF_INITIAL_MS;
        assert l <= k;
        BackoffExact(b, ticks, k);
        DelayDoubles(Failures(b, ticks, k));
        forall k': nat | LatestAt(b, ticks, k', j)
          ensures ticks[j].at < DueTime(b, ticks, k')
        {
          assert k' == k;
        }
      }
    }
    RetryStarvedExact(b, ticks, m);
    StillWaiting(b, ticks, m, n);
  }

  lemma {:induction false} ReadyBackoff(b: Boot, ticks: seq<Tick>)
    ensures Run(b, ticks).link.uplinkReady ==> Run(b, ticks).link.backoffMs == BACKOFF_INITIAL_MS
    decreases |ticks|
  {
    if ticks != [] {
      ReadyBackoff(b, Front(ticks));
      AlwaysOnePhase(b, Front(ticks));
    }
  }

  /** A link given up by reachability recovery costs two backoffs: the disconnect event that its own
      tear-down raises postpones the retry to 4000 ms after the event, and leaves the backoff at 8000. */
  lemma RecoveryBacksOffTwice(b: Boot, ticks: seq<Tick>, i: nat, j: nat)
    requires i < j < |ticks| && Before(b, ticks, i + 1).link.tearDowns > Before(b, ticks, i).link.tearDowns
    requires Unsettled(ticks, i, j) && NoAttemptBetween(b, ticks, i, j) && Drops(ticks[j].step)
    ensures Before(b, ticks, j + 1).link.reconnectPending
    ensures Before(b, ticks, j + 1).link.reconnectAtMs == Millis(ticks[j].at + 4000)
    ensures Before(b, ticks, j + 1).link.backoffMs == 8000
  {
    TearsDownOnlyWhenUp(b, ticks, i);
    ReadyBackoff(b, ticks[..i]);
    StepAt(b, ticks, i);
    StillPending(b, ticks, i, j);
    SameBackoff(b, ticks, i, j);
    StepAt(b, ticks, j);
    AlwaysOnePhase(b, ticks[..j]);
    Add32Millis(ticks[j].at, 4000);
  }

  lemma {:induction false} SameBackoff(b: Boot, ticks: seq<Tick>, m: nat, n: nat)
    requires m < n <= |ticks| && SchedulesAt(b, ticks, m)
    requires Unsettled(ticks, m, n) && NoAttemptBetween(b, ticks, m, n)
    ensures Before(b, ticks, n).link.backoffMs == Before(b, ticks, m + 1).link.backoffMs
    decreases n
  {
    if n > m + 1 {
      SameBackoff(b, ticks, m, n - 1);
      StillPending(b, ticks, m, n - 1);
      StepAt(b, ticks, n - 1);
      AlwaysOnePhase(b, ticks[..n - 1]);
      assert !StartsAttempt(b, ticks, n - 1);
      PendingStep(Before(b, ticks, n - 1).link, Before(b, ticks, n - 1), ticks[n - 1].at, ticks[n - 1].step);
    }
  }

  // ---- Against the supervisor ------------------------------------------------

  lemma {:induction false} BeginsGrow(b: Boot, ticks: seq<Tick>, n: nat)
    requires n <= |ticks|
    ensures Before(b, ticks, n).link.begins <= Run(b, ticks).link.begins
    decreases |ticks| - n
  {
    if n == |ticks| {
      assert ticks[..n] == ticks;
    } else {
      StepAt(b, ticks, n);
      BeginsGrow(b, ticks, n + 1);
    }
  }

  lemma {:induction false} DownSinceBoot(b: Boot, ticks: seq<Tick>)
    requires NeverOnline(ticks)
    ensures !Run(b, ticks).link.uplinkReady
    ensures Run(b, ticks).dog.downSinceMs == Watchdog.Nudged(Millis(b.dogAt))
    decreases |ticks|
  {
    if ticks != [] {
      DownSinceBoot(b, Front(ticks));
      assert ticks[|ticks| - 1].step != Radio(StaGotIp);
    }
  }

  lemma StallTakesFiveMinutes(b: Boot, ticks: seq<Tick>, sampledAt: nat)
    requires NeverOnline(ticks) && b.dogAt <= sampledAt && (b.dogAt == sampledAt ==> Millis(b.dogAt) != 0)
    requires Watchdog.Decision(Run(b, ticks).dog, Millis(sampledAt)) == Some(Watchdog.UplinkStall)
    ensures sampledAt >= b.dogAt + Watchdog.UPLINK_STALL_MS
  {
    DownSinceBoot(b, ticks);
    Watchdog.NudgedElapsed(b.dogAt, sampledAt);
  }

  /** A board whose uplink never comes up has started at least nine attempts by the time the
      supervisor gives up on the uplink, if loop() comes round every second and the first attempt
      follows the supervisor within ten. */
  lemma NineAttemptsBeforeReboot(b: Boot, ticks: seq<Tick>, gap: nat, sampledAt: nat)
    requires Fair(b, ticks, 0, sampledAt) && NoDropWhilePending(b, ticks, 0, sampledAt) && NeverOnline(ticks)
    requires b.attemptAt <= b.dogAt + 10000 && gap <= 1000
    requires b.dogAt <= sampledAt && (b.dogAt == sampledAt ==> Millis(b.dogAt) != 0)
    requires LoopsEvery(ticks, gap, b.attemptAt, sampledAt)
    requires Watchdog.Decision(Run(b, ticks).dog, Millis(sampledAt)) == Some(Watchdog.UplinkStall)
    ensures Run(b, ticks).link.begins >= 9
  {
    StallTakesFiveMinutes(b, ticks, sampledAt);
    NineFit(b.attemptAt, gap);
    Refines(b, ticks, 0, sampledAt);
    NoDropInTrace(b, ticks, 0, sampledAt);
    var n := NthAttempt(b, ticks, Trace(b, ticks), gap, sampledAt, 8);
    assert RepresentsAt(b, ticks, n);
    BeginsGrow(b, ticks, n);
  }
}
