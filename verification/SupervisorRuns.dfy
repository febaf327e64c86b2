/**
 The supervisor beside the running router: its polls are steps like any other, and what module
 Watchdog proves of the shared words holds of every run.
 */
module SupervisorRuns {
  import opened Wrappers
  import opened Clock
  import opened RouterSpec
  import opened RouterRuns
  import opened Retry
  import Watchdog

  // The steps that write or read the shared words.
  predicate Shared(e: Step) {
    e == UpdateWatchdog || e.SupervisorPoll?
  }

  function Shown(b: Boot, ticks: seq<Tick>, i: nat): Watchdog.Tick
    requires i < |ticks| && Shared(ticks[i].step)
  {
    if ticks[i].step == UpdateWatchdog then Watchdog.Update(ticks[i].at, Before(b, ticks, i).link.uplinkReady)
    else Watchdog.Poll(ticks[i].at, ticks[i].step.sampledAt)
  }

  // What a run of the router looks like to the supervisor.
  function View(b: Boot, ticks: seq<Tick>): seq<Watchdog.Tick>
    decreases |ticks|
  {
    if ticks == [] then []
    else
      var n := |ticks| - 1;
      if Shared(ticks[n].step) then View(b, ticks[..n]) + [Shown(b, ticks, n)] else View(b, ticks[..n])
  }

  /** The words the supervisor samples during a run of the router are those of module Watchdog's own
      runs. */
  lemma {:induction false} SupervisorSees(b: Boot, ticks: seq<Tick>)
    ensures Run(b, ticks).dog == Watchdog.Run(b.dogAt, View(b, ticks))
    decreases |ticks|
  {
    if ticks != [] {
      var n := |ticks| - 1;
      SupervisorSees(b, ticks[..n]);
      if Shared(ticks[n].step) {
        assert View(b, ticks)[..|View(b, ticks[..n])|] == View(b, ticks[..n]);
      }
    }
  }

  // Where in that view tick i appears.
  function Place(b: Boot, ticks: seq<Tick>, i: nat): nat
    requires i <= |ticks|
  {
    |View(b, ticks[..i])|
  }

  lemma {:induction false} ViewPrefix(b: Boot, ticks: seq<Tick>, i: nat)
    requires i <= |ticks|
    ensures View(b, ticks[..i]) <= View(b, ticks)
    decreases |ticks|
  {
    if i == |ticks| {
      assert ticks[..i] == ticks;
    } else {
      ViewPrefix(b, ticks[..|ticks| - 1], i);
      assert ticks[..|ticks| - 1][..i] == ticks[..i];
    }
  }

  lemma ViewAt(b: Boot, ticks: seq<Tick>, i: nat)
    requires i < |ticks| && Shared(ticks[i].step)
    ensures Place(b, ticks, i) < |View(b, ticks)| && View(b, ticks)[Place(b, ticks, i)] == Shown(b, ticks, i)
    ensures View(b, ticks)[..Place(b, ticks, i)] == View(b, ticks[..i])
  {
    ViewPrefix(b, ticks, i);
    ViewPrefix(b, ticks, i + 1);
    assert ticks[..i + 1][..i] == ticks[..i];
    assert View(b, ticks[..i + 1]) == View(b, ticks[..i]) + [Shown(b, ticks, i)];
  }

  // Every tick of the view is one of the run.
  lemma {:induction false} ViewFrom(b: Boot, ticks: seq<Tick>, k: nat) returns (i: nat)
    requires k < |View(b, ticks)|
    ensures i < |ticks| && Shared(ticks[i].step) && Place(b, ticks, i) == k
    decreases |ticks|
  {
    var n := |ticks| - 1;
    if k == |View(b, ticks[..n])| {
      i := n;
    } else {
      i := ViewFrom(b, ticks[..n], k);
      assert ticks[..n][..i] == ticks[..i];
    }
  }

  lemma PlacesOrdered(b: Boot, ticks: seq<Tick>, i: nat, j: nat)
    requires i <= j <= |ticks|
    ensures Place(b, ticks, i) <= Place(b, ticks, j)
  {
    ViewPrefix(b, ticks[..j], i);
    assert ticks[..j][..i] == ticks[..i];
  }

  // Polls sample the clock after boot and before they read the words.
  ghost predicate Sampled(b: Boot, ticks: seq<Tick>) {
    forall i | 0 <= i < |ticks| && ticks[i].step.SupervisorPoll? :: b.dogAt <= ticks[i].step.sampledAt <= ticks[i].at
  }

  lemma ViewTimed(b: Boot, ticks: seq<Tick>)
    requires Timed(b, ticks) && Sampled(b, ticks)
    ensures Watchdog.Timed(b.dogAt, View(b, ticks))
  {
    var view := View(b, ticks);
    forall k: nat | k < |view|
      ensures b.dogAt <= view[k].at && (view[k].Poll? ==> b.dogAt <= view[k].sampledAt <= view[k].at)
    {
      var i := ViewFrom(b, ticks, k);
      ViewAt(b, ticks, i);
    }
    forall k: nat, l: nat | k <= l < |view|
      ensures view[k].at <= view[l].at
    {
      var i := ViewFrom(b, ticks, k);
      var j := ViewFrom(b, ticks, l);
      ViewAt(b, ticks, i);
      ViewAt(b, ticks, j);
      if j <= i {
        PlacesOrdered(b, ticks, j, i);
      }
    }
  }

  // ---- Decisions -------------------------------------------------------------

  // What the poll at index i decides.
  function Decided(b: Boot, ticks: seq<Tick>, i: nat): Option<Watchdog.Reason>
    requires i < |ticks| && ticks[i].step.SupervisorPoll?
  {
    Watchdog.Decision(Before(b, ticks, i).dog, Millis(ticks[i].step.sampledAt))
  }

  lemma DecidedInView(b: Boot, ticks: seq<Tick>, i: nat)
    requires i < |ticks| && ticks[i].step.SupervisorPoll?
    ensures Place(b, ticks, i) < |View(b, ticks)|
    ensures View(b, ticks)[Place(b, ticks, i)] == Watchdog.Poll(ticks[i].at, ticks[i].step.sampledAt)
    ensures View(b, ticks)[..Place(b, ticks, i)] == View(b, ticks[..i])
    ensures Decided(b, ticks, i) == Watchdog.DecidedAt(b.dogAt, View(b, ticks), Place(b, ticks, i))
  {
    ViewAt(b, ticks, i);
    SupervisorSees(b, ticks[..i]);
  }

  // No update came between the clock sample of the poll at index i and its read.
  ghost predicate Unraced(ticks: seq<Tick>, i: nat)
    requires i < |ticks| && ticks[i].step.SupervisorPoll?
  {
    forall j | 0 <= j < i && ticks[j].step == UpdateWatchdog :: ticks[j].at <= ticks[i].step.sampledAt
  }

  lemma {:induction false} AliveBy(b: Boot, ticks: seq<Tick>, t: nat)
    requires b.dogAt <= t && forall j | 0 <= j < |ticks| && ticks[j].step == UpdateWatchdog :: ticks[j].at <= t
    ensures Watchdog.LastAlive(b.dogAt, View(b, ticks)) <= t
    decreases |ticks|
  {
    if ticks != [] {
      var n := |ticks| - 1;
      AliveBy(b, ticks[..n], t);
      if Shared(ticks[n].step) {
        assert View(b, ticks)[..|View(b, ticks)| - 1] == View(b, ticks[..n]);
      }
    }
  }

  lemma UpdateInView(b: Boot, ticks: seq<Tick>, i: nat, j: nat)
    requires j < i <= |ticks| && ticks[j].step == UpdateWatchdog
    ensures Place(b, ticks, j) < |View(b, ticks[..i])|
    ensures View(b, ticks[..i])[Place(b, ticks, j)] == Watchdog.Update(ticks[j].at, Before(b, ticks, j).link.uplinkReady)
  {
    ViewAt(b, ticks[..i], j);
    assert ticks[..i][..j] == ticks[..j];
  }

  /** No false reboot of the running router for a stalled loop: no iteration began in the 300000 ms
      before the sample. */
  lemma LoopRebootEarned(b: Boot, ticks: seq<Tick>, i: nat)
    requires Timed(b, ticks) && Sampled(b, ticks) && i < |ticks| && ticks[i].step.SupervisorPoll?
    requires Unraced(ticks, i) && Decided(b, ticks, i) == Some(Watchdog.LoopStall)
    ensures forall j | 0 <= j < i && ticks[j].step == UpdateWatchdog ::
              ticks[i].step.sampledAt - ticks[j].at >= Watchdog.LOOP_STALL_MS
  {
    var front, now := ticks[..i], ticks[i].step.sampledAt;
    DecidedInView(b, ticks, i);
    AliveBy(b, front, now);
    Watchdog.LoopRebootSound(b.dogAt, View(b, ticks), Place(b, ticks, i));
    ViewTimed(b, front);
    Watchdog.LastAliveBounds(b.dogAt, View(b, front));
    forall j | 0 <= j < i && ticks[j].step == UpdateWatchdog
      ensures now - ticks[j].at >= Watchdog.LOOP_STALL_MS
    {
      UpdateInView(b, ticks, i, j);
    }
  }

  /** No false reboot for a lost uplink: every iteration of the 300000 ms before the sample found the
      uplink down, unless the poll is caught by the nudge. */
  lemma UplinkRebootEarned(b: Boot, ticks: seq<Tick>, i: nat)
    requires Timed(b, ticks) && Sampled(b, ticks) && i < |ticks| && ticks[i].step.SupervisorPoll?
    requires Unraced(ticks, i) && Decided(b, ticks, i) == Some(Watchdog.UplinkStall)
    requires !Watchdog.CaughtByNudge(b.dogAt, View(b, ticks[..i]), ticks[i].step.sampledAt)
    ensures ticks[i].step.sampledAt >= b.dogAt + Watchdog.UPLINK_STALL_MS
    ensures forall j: nat | j < i && ticks[j].step == UpdateWatchdog
                            && ticks[i].step.sampledAt - ticks[j].at < Watchdog.UPLINK_STALL_MS ::
              !Before(b, ticks, j).link.uplinkReady
  {
    var now := ticks[i].step.sampledAt;
    DecidedInView(b, ticks, i);
    AliveBy(b, ticks[..i], now);
    ViewTimed(b, ticks);
    Watchdog.UplinkRebootSound(b.dogAt, View(b, ticks), Place(b, ticks, i));
    forall j: nat | j < i && ticks[j].step == UpdateWatchdog && now - ticks[j].at < Watchdog.UPLINK_STALL_MS
      ensures !Before(b, ticks, j).link.uplinkReady
    {
      UpdateInView(b, ticks, i, j);
    }
  }

  // Some poll samples the clock no earlier than `lo` and at most `gap` later.
  ghost predicate SupervisedWithin(ticks: seq<Tick>, lo: nat, gap: nat) {
    exists i :: 0 <= i < |ticks| && ticks[i].step.SupervisorPoll? && lo <= ticks[i].step.sampledAt <= lo + gap
  }

  ghost predicate SupervisedEvery(b: Boot, ticks: seq<Tick>, gap: nat, until: nat) {
    forall lo: nat | b.dogAt <= lo <= until - gap :: SupervisedWithin(ticks, lo, gap)
  }

  lemma ViewPolled(b: Boot, ticks: seq<Tick>, gap: nat, until: nat)
    requires SupervisedEvery(b, ticks, gap, until)
    ensures Watchdog.PolledEvery(b.dogAt, View(b, ticks), gap, until)
  {
    forall lo: nat | b.dogAt <= lo <= until - gap
      ensures Watchdog.PolledWithin(View(b, ticks), lo, gap)
    {
      assert SupervisedWithin(ticks, lo, gap);
      var i: nat :| i < |ticks| && ticks[i].step.SupervisorPoll? && lo <= ticks[i].step.sampledAt <= lo + gap;
      DecidedInView(b, ticks, i);
    }
  }

  // From the update at index n on, every update finds the uplink down.
  ghost predicate OfflineFrom(b: Boot, ticks: seq<Tick>, n: nat) {
    && n < |ticks| && ticks[n].step == UpdateWatchdog
    && forall j: nat | n <= j < |ticks| && ticks[j].step == UpdateWatchdog :: !Before(b, ticks, j).link.uplinkReady
  }

  lemma OutageInView(b: Boot, ticks: seq<Tick>, n: nat)
    requires Timed(b, ticks) && Sampled(b, ticks) && OfflineFrom(b, ticks, n)
    ensures var since := Watchdog.DownSince(b.dogAt, View(b, ticks)); since.Some? && since.value <= ticks[n].at
  {
    var view, k := View(b, ticks), Place(b, ticks, n);
    ViewTimed(b, ticks);
    ViewAt(b, ticks, n);
    forall l: nat | k <= l < |view| && view[l].Update?
      ensures !view[l].ready
    {
      var j := ViewFrom(b, ticks, l);
      ViewAt(b, ticks, j);
      if j < n {
        UpdateInView(b, ticks, n, j);
      }
    }
    Watchdog.OutageBegun(b.dogAt, view, k);
  }

  /** A board that stays offline is rebooted: within the threshold, the nudge and one poll gap of any
      update of the outage, some poll decides so. */
  lemma OutageRebooted(b: Boot, ticks: seq<Tick>, n: nat, gap: nat, until: nat) returns (i: nat)
    requires Timed(b, ticks) && Sampled(b, ticks) && OfflineFrom(b, ticks, n)
    requires SupervisedEvery(b, ticks, gap, until) && gap < WRAP - Watchdog.UPLINK_STALL_MS - 1
    requires ticks[n].at + Watchdog.UPLINK_STALL_MS + 1 + gap <= until
    ensures i < |ticks| && ticks[i].step.SupervisorPoll?
    ensures ticks[i].step.sampledAt <= ticks[n].at + Watchdog.UPLINK_STALL_MS + 1 + gap
    ensures Decided(b, ticks, i).Some?
  {
    ViewTimed(b, ticks);
    ViewPolled(b, ticks, gap, until);
    OutageInView(b, ticks, n);
    var k := Watchdog.UplinkStallDetected(b.dogAt, View(b, ticks), gap, until);
    i := ViewFrom(b, ticks, k);
    ViewAt(b, ticks, i);
    DecidedInView(b, ticks, i);
  }

  /** A retry that a rollover has stranded ends in a reboot: if no check came between its due time and the
      rollover, the board stays offline, and the supervisor gives up on it. */
  lemma StrandedUntilReboot(b: Boot, ticks: seq<Tick>, m: nat, n: nat, gap: nat, until: nat) returns (i: nat)
    requires Timed(b, ticks) && Sampled(b, ticks)
    requires m < n < |ticks| && SchedulesAt(b, ticks, m) && Unsettled(ticks, m, |ticks|)
    requires ticks[m].at / WRAP == DueTime(b, ticks, m) / WRAP
    requires forall j | m < j < |ticks| :: ticks[j].at < DueTime(b, ticks, m) + WRAP
    requires forall j: nat | m < j < |ticks| :: !ChecksInTime(ticks, j, DueTime(b, ticks, m))
    requires ticks[n].step == UpdateWatchdog
    requires SupervisedEvery(b, ticks, gap, until) && gap < WRAP - Watchdog.UPLINK_STALL_MS - 1
    requires ticks[n].at + Watchdog.UPLINK_STALL_MS + 1 + gap <= until
    ensures i < |ticks| && ticks[i].step.SupervisorPoll?
    ensures ticks[i].step.sampledAt <= ticks[n].at + Watchdog.UPLINK_STALL_MS + 1 + gap
    ensures Decided(b, ticks, i).Some?
  {
    RetryBeforeRolloverExact(b, ticks, m);
    forall j: nat | n <= j < |ticks|
      ensures !Before(b, ticks, j).link.uplinkReady
    {
      StillPending(b, ticks, m, j);
      AlwaysOnePhase(b, ticks[..j]);
    }
    i := OutageRebooted(b, ticks, n, gap, until);
  }

  /** And so does a retry that disconnect events keep postponing. */
  lemma PesteredUntilReboot(b: Boot, ticks: seq<Tick>, m: nat, n: nat, gap: nat, until: nat) returns (i: nat)
    requires Timed(b, ticks) && Sampled(b, ticks)
    requires m < n < |ticks| && SchedulesAt(b, ticks, m) && NoAddress(ticks, m, |ticks|)
    requires forall j: nat | m < j < |ticks| :: InPeriod(b, ticks, m, j)
    requires Pestered(b, ticks, m) && ticks[n].step == UpdateWatchdog
    requires SupervisedEvery(b, ticks, gap, until) && gap < WRAP - Watchdog.UPLINK_STALL_MS - 1
    requires ticks[n].at + Watchdog.UPLINK_STALL_MS + 1 + gap <= until
    ensures i < |ticks| && ticks[i].step.SupervisorPoll?
    ensures ticks[i].step.sampledAt <= ticks[n].at + Watchdog.UPLINK_STALL_MS + 1 + gap
    ensures Decided(b, ticks, i).Some?
  {
    forall j: nat | n <= j < |ticks|
      ensures !Before(b, ticks, j).link.uplinkReady
    {
      PesteredStaysOffline(b, ticks, m, j);
      AlwaysOnePhase(b, ticks[..j]);
    }
    i := OutageRebooted(b, ticks, n, gap, until);
  }
}
