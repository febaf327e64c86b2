/** The recovery supervisor: two stall clocks written by loop() and sampled by a second task. */
module Watchdog {
  import opened Wrappers
  import opened Clock

  const LOOP_STALL_MS: Word := 300000
  const UPLINK_STALL_MS: Word := 300000

  datatype Reason = LoopStall | UplinkStall

  // The words shared between loop() and the supervisor; downSinceMs == 0 means "uplink up".
  datatype Words = Words(lastLoopMs: Word, downSinceMs: Word, armed: bool)

  function Nudged(ms: Word): Word {
    if ms == 0 then 1 else ms
  }

  function Marked(w: Words, t: nat): Words {
    if w.downSinceMs != 0 then w else w.(downSinceMs := Nudged(Millis(t)))
  }

  function Begun(t: nat, taskStarts: bool): Words {
    Words(Millis(t), Nudged(Millis(t)), taskStarts)
  }

  function Updated(w: Words, t: nat, uplinkReady: bool): Words {
    var alive := w.(lastLoopMs := Millis(t));
    if uplinkReady then alive.(downSinceMs := 0) else Marked(alive, t)
  }

  // What one supervisor poll decides, given the clock value it sampled beforehand.
  function Decision(w: Words, now: Word): Option<Reason> {
    if !w.armed then None
    else if Sub32(now, w.lastLoopMs) >= LOOP_STALL_MS then Some(LoopStall)
    else if w.downSinceMs != 0 && Sub32(now, w.downSinceMs) >= UPLINK_STALL_MS then Some(UplinkStall)
    else None
  }

  /** A supervisor whose task could not be started never decides anything; one whose task runs is armed
      from the start. */
  lemma UnarmedNever(t: nat, taskStarts: bool, now: Word)
    ensures Begun(t, taskStarts).armed == taskStarts
    ensures !taskStarts ==> Decision(Begun(t, taskStarts), now) == None
  {
  }

  class Supervisor {
    var lastLoopMs: Word
    var downSinceMs: Word
    var armed: bool

    function State(): Words
      reads this
    {
      Words(lastLoopMs, downSinceMs, armed)
    }

    constructor Begin(t: nat, taskStarts: bool)
      ensures State() == Begun(t, taskStarts)
    {
      downSinceMs := 0;
      lastLoopMs := Millis(t);
      armed := true;
      new;
      MarkUplinkDown(t);
      if !taskStarts {
        armed := false;
      }
    }

    method MarkUplinkDown(t: nat)
      modifies this
      ensures State() == Marked(old(State()), t)
    {
      if downSinceMs != 0 {
        return;
      }
      var now := Millis(t);
      downSinceMs := if now == 0 then 1 else now;
    }

    method Update(t: nat, uplinkReady: bool)
      modifies this
      ensures State() == Updated(old(State()), t, uplinkReady)
    {
      lastLoopMs := Millis(t);
      if uplinkReady {
        downSinceMs := 0;
      } else {
        MarkUplinkDown(t);
      }
    }

    /** One turn of the supervisor's endless loop. `now` was sampled before the shared words are read. */
    method Poll(now: Word) returns (reboot: Option<Reason>)
      ensures reboot == Decision(State(), now)
    {
      if !armed {
        return None;
      }
      if Sub32(now, lastLoopMs) >= LOOP_STALL_MS {
        return Some(LoopStall);
      }
      var since := downSinceMs;
      if since != 0 && Sub32(now, since) >= UPLINK_STALL_MS {
        return Some(UplinkStall);
      }
      return None;
    }
  }

  // ---- Runs ------------------------------------------------------------------

  // A poll samples the clock at `sampledAt` and reads the shared words at `at`.
  datatype Tick = Update(at: nat, ready: bool) | Poll(at: nat, sampledAt: nat)

  predicate Timed(start: nat, ticks: seq<Tick>) {
    && (forall i | 0 <= i < |ticks| :: start <= ticks[i].at)
    && (forall i, j | 0 <= i <= j < |ticks| :: ticks[i].at <= ticks[j].at)
    && (forall i | 0 <= i < |ticks| && ticks[i].Poll? :: start <= ticks[i].sampledAt <= ticks[i].at)
  }

  function Run(start: nat, ticks: seq<Tick>): Words
    decreases |ticks|
  {
    if ticks == [] then Begun(start, true)
    else
      var w, e := Run(start, ticks[..|ticks| - 1]), ticks[|ticks| - 1];
      if e.Update? then Updated(w, e.at, e.ready) else w
  }

  // The true time loop() was last seen alive.
  function LastAlive(start: nat, ticks: seq<Tick>): nat
    decreases |ticks|
  {
    if ticks == [] then start
    else
      var e := ticks[|ticks| - 1];
      if e.Update? then e.at else LastAlive(start, ticks[..|ticks| - 1])
  }

  // Whether the last update of the run saw the uplink up; None before the first one.
  function LastReady(ticks: seq<Tick>): Option<bool>
    decreases |ticks|
  {
    if ticks == [] then None
    else
      var e := ticks[|ticks| - 1];
      if e.Update? then Some(e.ready) else LastReady(ticks[..|ticks| - 1])
  }

  // From index i on, no update saw the uplink up.
  ghost predicate DownFrom(ticks: seq<Tick>, i: nat) {
    forall j | i <= j < |ticks| && ticks[j].Update? :: !ticks[j].ready
  }

  // The update at index i is the first to see the uplink down since it was last seen up.
  ghost predicate OutageStarts(ticks: seq<Tick>, i: nat) {
    && i < |ticks|
    && ticks[i].Update?
    && DownFrom(ticks, i)
    && LastReady(ticks[..i]) == Some(true)
  }

  // The true time at which the present outage was first noticed.
  function DownSince(start: nat, ticks: seq<Tick>): Option<nat>
    decreases |ticks|
  {
    if ticks == [] then Some(start)
    else
      var since, e := DownSince(start, ticks[..|ticks| - 1]), ticks[|ticks| - 1];
      if !e.Update? then since
      else if e.ready then None
      else if since.None? then Some(e.at)
      else since
  }

  lemma {:induction false} DownSinceMeans(start: nat, ticks: seq<Tick>)
    ensures DownSince(start, ticks) == None <==> LastReady(ticks) == Some(true)
    ensures DownSince(start, ticks).Some? ==>
              || (DownFrom(ticks, 0) && DownSince(start, ticks).value == start)
              || exists i: nat :: OutageStarts(ticks, i) && DownSince(start, ticks).value == ticks[i].at
    decreases |ticks|
  {
    if ticks != [] {
      var n := |ticks| - 1;
      var front := ticks[..n];
      DownSinceMeans(start, front);
      if ticks[n].Update? && !ticks[n].ready && DownSince(start, front).None? {
        assert OutageStarts(ticks, n);
      } else if DownSince(start, ticks).Some? && !(DownFrom(front, 0) && DownSince(start, front).value == start) {
        var i: nat :| OutageStarts(front, i) && DownSince(start, front).value == front[i].at;
        assert front[..i] == ticks[..i];
        assert OutageStarts(ticks, i);
      }
    }
  }

  /** The down clock is zero exactly while the last update saw the uplink up; otherwise it holds the
      time the present outage was first noticed (or of begin, if the uplink was never up), nudged
      off zero: later updates of the same outage do not move it. */
  lemma {:induction false} DownClock(start: nat, ticks: seq<Tick>)
    ensures Run(start, ticks).downSinceMs == 0 <==> LastReady(ticks) == Some(true)
    ensures DownFrom(ticks, 0) ==> Run(start, ticks).downSinceMs == Nudged(Millis(start))
    ensures forall i: nat | OutageStarts(ticks, i) :: Run(start, ticks).downSinceMs == Nudged(Millis(ticks[i].at))
  {
    DownClockValue(start, ticks);
    DownSinceMeans(start, ticks);
    if DownFrom(ticks, 0) {
      StaysDown(start, ticks, 0);
      assert ticks[..0] == [];
    }
    forall i: nat | OutageStarts(ticks, i)
      ensures DownSince(start, ticks) == Some(ticks[i].at)
    {
      DownSinceMeans(start, ticks[..i]);
      assert ticks[..i + 1][..i] == ticks[..i];
      StaysDown(start, ticks, i + 1);
    }
  }

  lemma {:induction false} DownClockValue(start: nat, ticks: seq<Tick>)
    ensures Run(start, ticks).downSinceMs
            == match DownSince(start, ticks) case None => 0 case Some(d) => Nudged(Millis(d))
    decreases |ticks|
  {
    if ticks != [] {
      DownClockValue(start, ticks[..|ticks| - 1]);
    }
  }

  lemma {:induction false} StaysDown(start: nat, ticks: seq<Tick>, i: nat)
    requires i <= |ticks| && DownFrom(ticks, i) && DownSince(start, ticks[..i]).Some?
    ensures DownSince(start, ticks) == DownSince(start, ticks[..i])
    decreases |ticks|
  {
    if i == |ticks| {
      assert ticks[..i] == ticks;
    } else {
      var front := ticks[..|ticks| - 1];
      assert front[..i] == ticks[..i];
      StaysDown(start, front, i);
    }
  }

  lemma {:induction false} LoopClock(start: nat, ticks: seq<Tick>)
    ensures Run(start, ticks).lastLoopMs == Millis(LastAlive(start, ticks))
    ensures Run(start, ticks).armed
    decreases |ticks|
  {
    if ticks != [] {
      LoopClock(start, ticks[..|ticks| - 1]);
    }
  }

  lemma {:induction false} LastAliveBounds(start: nat, ticks: seq<Tick>)
    requires Timed(start, ticks)
    ensures start <= LastAlive(start, ticks)
    ensures ticks != [] ==> LastAlive(start, ticks) <= ticks[|ticks| - 1].at
    ensures forall i | 0 <= i < |ticks| && ticks[i].Update? :: ticks[i].at <= LastAlive(start, ticks)
    decreases |ticks|
  {
    if ticks != [] {
      LastAliveBounds(start, ticks[..|ticks| - 1]);
    }
  }

  // What the supervisor decides at the poll with index i of a run.
  function DecidedAt(start: nat, ticks: seq<Tick>, i: nat): Option<Reason>
    requires i < |ticks| && ticks[i].Poll?
  {
    Decision(Run(start, ticks[..i]), Millis(ticks[i].sampledAt))
  }

  /** Exactly when a poll reboots for a stalled loop, for any run and any number of rollovers: when the
      loop really has been silent for the threshold, or when an update slipped in between the
      poll's clock sample and its read. */
  lemma LoopRebootExact(start: nat, ticks: seq<Tick>, i: nat)
    requires Timed(start, ticks) && i < |ticks| && ticks[i].Poll?
    requires -(WRAP - LOOP_STALL_MS) <= ticks[i].sampledAt - LastAlive(start, ticks[..i]) < WRAP
    ensures DecidedAt(start, ticks, i) == Some(LoopStall)
            <==> || ticks[i].sampledAt >= LastAlive(start, ticks[..i]) + LOOP_STALL_MS
                 || ticks[i].sampledAt < LastAlive(start, ticks[..i])
  {
    LoopClock(start, ticks[..i]);
    var now, alive := ticks[i].sampledAt, LastAlive(start, ticks[..i]);
    if now < alive {
      ElapsedUnderflow(alive, now);
    } else {
      Elapsed(alive, now);
    }
  }

  /** No false loop reboot, without any bound on how long the silence was. */
  lemma LoopRebootSound(start: nat, ticks: seq<Tick>, i: nat)
    requires i < |ticks| && ticks[i].Poll?
    requires LastAlive(start, ticks[..i]) <= ticks[i].sampledAt
    requires DecidedAt(start, ticks, i) == Some(LoopStall)
    ensures ticks[i].sampledAt - LastAlive(start, ticks[..i]) >= LOOP_STALL_MS
  {
    LoopClock(start, ticks[..i]);
    Elapsed(LastAlive(start, ticks[..i]), ticks[i].sampledAt);
  }

  /** The sampling race is real: a loop that ran one millisecond ago is taken for a stalled one. */
  lemma StaleSampleReboots()
    ensures var ticks := [Update(1001, true), Poll(1001, 1000)];
            Timed(0, ticks) && DecidedAt(0, ticks, 1) == Some(LoopStall)
  {
    var ticks := [Update(1001, true), Poll(1001, 1000)];
    LoopRebootExact(0, ticks, 1);
    assert ticks[..1] == [Update(1001, true)];
  }

  /** The nudge has the same edge: an uplink found down in the very millisecond the clock reads zero
      is taken, by a poll in that millisecond, for one that has been down for five minutes. */
  lemma NudgeReboots()
    ensures var ticks := [Update(WRAP - 1, true), Update(WRAP, false), Poll(WRAP, WRAP)];
            Timed(0, ticks) && DecidedAt(0, ticks, 2) == Some(UplinkStall)
  {
    var ticks := [Update(WRAP - 1, true), Update(WRAP, false), Poll(WRAP, WRAP)];
    assert ticks[..2][..1] == [Update(WRAP - 1, true)];
    assert Run(0, ticks[..2][..1]).downSinceMs == 0;
    assert Run(0, ticks[..2]).downSinceMs == 1;
  }

  // Some poll samples the clock no earlier than `lo` and at most `gap` later.
  ghost predicate PolledWithin(ticks: seq<Tick>, lo: nat, gap: nat) {
    exists i :: 0 <= i < |ticks| && ticks[i].Poll? && lo <= ticks[i].sampledAt <= lo + gap
  }

  // Polls are at most `gap` apart for as long as the run has been observed.
  ghost predicate PolledEvery(start: nat, ticks: seq<Tick>, gap: nat, until: nat) {
    forall lo: nat | start <= lo <= until - gap :: PolledWithin(ticks, lo, gap)
  }

  /** A loop that stops is rebooted no later than 300000 ms plus one poll gap after its last sign of
      life, whatever the clock reads. */
  lemma LoopStallDetected(start: nat, ticks: seq<Tick>, gap: nat, until: nat) returns (i: nat)
    requires Timed(start, ticks) && PolledEvery(start, ticks, gap, until)
    requires gap < WRAP - LOOP_STALL_MS
    requires LastAlive(start, ticks) + LOOP_STALL_MS + gap <= until
    ensures i < |ticks| && ticks[i].Poll?
    ensures ticks[i].sampledAt <= LastAlive(start, ticks) + LOOP_STALL_MS + gap
    ensures DecidedAt(start, ticks, i) == Some(LoopStall)
  {
    var due := LastAlive(start, ticks) + LOOP_STALL_MS;
    LastAliveBounds(start, ticks);
    assert PolledWithin(ticks, due, gap);
    i :| 0 <= i < |ticks| && ticks[i].Poll? && due <= ticks[i].sampledAt <= due + gap;
    SilentSuffix(start, ticks, i);
    LoopClock(start, ticks[..i]);
    Elapsed(LastAlive(start, ticks), ticks[i].sampledAt);
  }

  lemma {:induction false} SilentSuffix(start: nat, ticks: seq<Tick>, i: nat)
    requires i <= |ticks|
    requires forall j | i <= j < |ticks| :: !ticks[j].Update?
    ensures LastAlive(start, ticks[..i]) == LastAlive(start, ticks)
    decreases |ticks|
  {
    if i == |ticks| {
      assert ticks[..i] == ticks;
    } else {
      var front := ticks[..|ticks| - 1];
      SilentSuffix(start, front, i);
      assert front[..i] == ticks[..i];
    }
  }

  // The nudge stores a time one millisecond in the future, and this poll falls into that millisecond:
  // the outage began, and the clock was sampled, in one and the same millisecond reading zero.
  predicate CaughtByNudge(start: nat, ticks: seq<Tick>, sampledAt: nat) {
    DownSince(start, ticks) == Some(sampledAt) && Millis(sampledAt) == 0
  }

  /** Exactly when a poll that samples the clock no earlier than the last update reboots for a lost
      uplink, less than a full clock period into the outage: loop() is alive, and either the outage
      has lasted the threshold (a time stored in a millisecond reading zero counting as one later), or
      the poll is caught by the nudge. */
  lemma UplinkRebootExact(start: nat, ticks: seq<Tick>, i: nat)
    requires Timed(start, ticks) && i < |ticks| && ticks[i].Poll?
    requires LastAlive(start, ticks[..i]) <= ticks[i].sampledAt < LastAlive(start, ticks[..i]) + WRAP
    requires DownSince(start, ticks[..i]).Some? ==> ticks[i].sampledAt - DownSince(start, ticks[..i]).value < WRAP
    ensures DecidedAt(start, ticks, i) == Some(UplinkStall)
            <==> && ticks[i].sampledAt < LastAlive(start, ticks[..i]) + LOOP_STALL_MS
                 && DownSince(start, ticks[..i]).Some?
                 && var since := DownSince(start, ticks[..i]).value;
                    || ticks[i].sampledAt - since >= UPLINK_STALL_MS + (if Millis(since) == 0 then 1 else 0)
                    || CaughtByNudge(start, ticks[..i], ticks[i].sampledAt)
  {
    var front, now := ticks[..i], ticks[i].sampledAt;
    LoopClock(start, front);
    Elapsed(LastAlive(start, front), now);
    DownClockValue(start, front);
    DownSinceBefore(start, front);
    if DownSince(start, front).Some? && !CaughtByNudge(start, front, now) {
      NudgedElapsed(DownSince(start, front).value, now);
    }
  }

  // What a poll decides that samples the clock, reads the loop's time after i ticks, and the down clock
  // after j.
  function DecidedSplit(start: nat, ticks: seq<Tick>, i: nat, j: nat, now: nat): Option<Reason>
    requires i <= j <= |ticks|
  {
    Decision(Words(Run(start, ticks[..i]).lastLoopMs, Run(start, ticks[..j]).downSinceMs, true), Millis(now))
  }

  /** The two words are read one after the other. If an outage begins between the clock sample and the
      second read, the poll is taken in just as it is by the nudge; otherwise the two reads decide
      what one would. */
  lemma SplitReadExact(start: nat, ticks: seq<Tick>, i: nat, j: nat, now: nat)
    requires Timed(start, ticks) && i <= j <= |ticks|
    requires LastAlive(start, ticks[..i]) <= now < LastAlive(start, ticks[..i]) + WRAP
    requires var since := DownSince(start, ticks[..j]);
             since.Some? ==> -(WRAP - UPLINK_STALL_MS) < now - since.value - 1 < WRAP - 1
    ensures DecidedSplit(start, ticks, i, j, now) == Some(UplinkStall)
            <==> && now < LastAlive(start, ticks[..i]) + LOOP_STALL_MS
                 && DownSince(start, ticks[..j]).Some?
                 && var since := DownSince(start, ticks[..j]).value;
                    || now - since >= UPLINK_STALL_MS + (if Millis(since) == 0 then 1 else 0)
                    || CaughtByNudge(start, ticks[..j], now)
                    || since > now
  {
    LoopClock(start, ticks[..i]);
    Elapsed(LastAlive(start, ticks[..i]), now);
    DownClockValue(start, ticks[..j]);
    if DownSince(start, ticks[..j]).Some? && !CaughtByNudge(start, ticks[..j], now) {
      var since := DownSince(start, ticks[..j]).value;
      if since <= now {
        NudgedElapsed(since, now);
      } else {
        NudgedUnderflow(since, now);
      }
    }
  }

  lemma NudgedUnderflow(since: nat, now: nat)
    requires now < since && since - now < WRAP - UPLINK_STALL_MS
    ensures Sub32(Millis(now), Nudged(Millis(since))) >= UPLINK_STALL_MS
  {
    if Millis(since) == 0 {
      DivMod(since + 1, since / WRAP, 1);
      ElapsedUnderflow(since + 1, now);
    } else {
      ElapsedUnderflow(since, now);
    }
  }

  // Every update in the 300000 ms before `now` saw the uplink down, and there have been so many.
  ghost predicate DownThroughout(start: nat, ticks: seq<Tick>, now: nat) {
    && now >= start + UPLINK_STALL_MS
    && forall j | 0 <= j < |ticks| && ticks[j].Update? && now - ticks[j].at < UPLINK_STALL_MS :: !ticks[j].ready
  }

  /** No reboot for a lost uplink unless every update of the last 300000 ms saw it down, however long
      the outage, or the poll is caught by the nudge. */
  lemma UplinkRebootSound(start: nat, ticks: seq<Tick>, i: nat)
    requires Timed(start, ticks) && i < |ticks| && ticks[i].Poll?
    requires LastAlive(start, ticks[..i]) <= ticks[i].sampledAt
    requires DecidedAt(start, ticks, i) == Some(UplinkStall)
    ensures DownThroughout(start, ticks[..i], ticks[i].sampledAt) || CaughtByNudge(start, ticks[..i], ticks[i].sampledAt)
  {
    var front, now := ticks[..i], ticks[i].sampledAt;
    DownClockValue(start, front);
    DownSinceBefore(start, front);
    DownSinceMeans(start, front);
    if !CaughtByNudge(start, front, now) {
      var since := DownSince(start, front).value;
      NudgedElapsed(since, now);
      forall j | 0 <= j < i && front[j].Update? && now - front[j].at < UPLINK_STALL_MS
        ensures !front[j].ready
      {
        if !DownFrom(front, 0) {
          var k: nat :| OutageStarts(front, k) && since == front[k].at;
          assert front[k] == ticks[k] && front[j] == ticks[j];
        }
      }
    }
  }

  /** A lasting outage is always rebooted: with polls at most `gap` apart, one that samples the clock
      within the threshold, the nudge and one gap of its beginning decides a reboot, whatever the
      clock reads and whether or not loop() still runs. */
  lemma UplinkStallDetected(start: nat, ticks: seq<Tick>, gap: nat, until: nat) returns (i: nat)
    requires Timed(start, ticks) && PolledEvery(start, ticks, gap, until)
    requires gap < WRAP - UPLINK_STALL_MS - 1
    requires DownSince(start, ticks).Some? && DownSince(start, ticks).value + UPLINK_STALL_MS + 1 + gap <= until
    ensures i < |ticks| && ticks[i].Poll?
    ensures ticks[i].sampledAt <= DownSince(start, ticks).value + UPLINK_STALL_MS + 1 + gap
    ensures DecidedAt(start, ticks, i).Some?
  {
    var since := DownSince(start, ticks).value;
    var due := since + UPLINK_STALL_MS + 1;
    DownSinceBefore(start, ticks);
    assert PolledWithin(ticks, due, gap);
    i :| 0 <= i < |ticks| && ticks[i].Poll? && due <= ticks[i].sampledAt <= due + gap;
    DownSinceAlready(start, ticks, i);
    DownClockValue(start, ticks[..i]);
    LoopClock(start, ticks[..i]);
    NudgedElapsed(since, ticks[i].sampledAt);
  }

  // A later part of the run does not move the beginning of the outage.
  lemma {:induction false} DownSinceAlready(start: nat, ticks: seq<Tick>, i: nat)
    requires Timed(start, ticks) && DownSince(start, ticks).Some?
    requires i <= |ticks| && (i < |ticks| ==> ticks[i].at > DownSince(start, ticks).value)
    ensures DownSince(start, ticks[..i]) == DownSince(start, ticks)
    decreases |ticks|
  {
    if i == |ticks| {
      assert ticks[..i] == ticks;
    } else {
      var front := ticks[..|ticks| - 1];
      assert ticks[i].at <= ticks[|ticks| - 1].at;
      assert front[..i] == ticks[..i];
      DownSinceAlready(start, front, i);
    }
  }

  lemma OutageBegun(start: nat, ticks: seq<Tick>, k: nat)
    requires Timed(start, ticks) && k < |ticks| && ticks[k].Update? && DownFrom(ticks, k)
    ensures DownSince(start, ticks).Some? && DownSince(start, ticks).value <= ticks[k].at
  {
    assert ticks[..k + 1][..k] == ticks[..k];
    DownSinceBefore(start, ticks[..k + 1]);
    StaysDown(start, ticks, k + 1);
  }

  lemma {:induction false} DownSinceBefore(start: nat, ticks: seq<Tick>)
    requires Timed(start, ticks)
    ensures DownSince(start, ticks).Some? ==> start <= DownSince(start, ticks).value <= LastAlive(start, ticks)
    decreases |ticks|
  {
    if ticks != [] {
      DownSinceBefore(start, ticks[..|ticks| - 1]);
      LastAliveBounds(start, ticks[..|ticks| - 1]);
    }
  }

  lemma NudgedElapsed(since: nat, now: nat)
    requires since < now || (since == now && Millis(since) != 0)
    ensures Sub32(Millis(now), Nudged(Millis(since))) <= now - since
    ensures now - since < WRAP ==>
              Sub32(Millis(now), Nudged(Millis(since))) == now - since - (if Millis(since) == 0 then 1 else 0)
  {
    Elapsed(since, now);
    if Millis(since) == 0 {
      DivMod(since + 1, since / WRAP, 1);
      Elapsed(since + 1, now);
    }
  }
}
