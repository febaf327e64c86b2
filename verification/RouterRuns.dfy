/** Runs of the control machine: any interleaving of events, loop segments and ping callbacks. */
module RouterRuns {
  import opened Clock
  import opened RouterSpec

  datatype Tick = Tick(at: nat, step: Step)

  ghost predicate Timed(b: Boot, ticks: seq<Tick>) {
    && b.dogAt <= b.attemptAt
    && (forall i | 0 <= i < |ticks| :: b.attemptAt <= ticks[i].at)
    && (forall i, j | 0 <= i <= j < |ticks| :: ticks[i].at <= ticks[j].at)
  }

  function Run(b: Boot, ticks: seq<Tick>): State
    decreases |ticks|
  {
    if ticks == [] then Booted(b)
    else Next(Run(b, Front(ticks)), Last(ticks).at, Last(ticks).step)
  }

  function Front(ticks: seq<Tick>): seq<Tick>
    requires ticks != []
  {
    ticks[..|ticks| - 1]
  }

  function Last(ticks: seq<Tick>): Tick
    requires ticks != []
  {
    ticks[|ticks| - 1]
  }

  // The time of the latest tick.
  function Now(b: Boot, ticks: seq<Tick>): nat {
    if ticks == [] then b.attemptAt else Last(ticks).at
  }

  // The state in which the tick with index i is taken.
  function Before(b: Boot, ticks: seq<Tick>, i: nat): State
    requires i <= |ticks|
  {
    Run(b, ticks[..i])
  }

  lemma StepAt(b: Boot, ticks: seq<Tick>, i: nat)
    requires i < |ticks|
    ensures Before(b, ticks, i + 1) == Next(Before(b, ticks, i), ticks[i].at, ticks[i].step)
    ensures Front(ticks[..i + 1]) == ticks[..i] && Last(ticks[..i + 1]) == ticks[i]
  {
    assert ticks[..i + 1][..i] == ticks[..i];
  }

  // ---- Longer runs -----------------------------------------------------------

  // The state that further ticks lead to.
  function After(s: State, more: seq<Tick>): State
    decreases |more|
  {
    if more == [] then s else After(Next(s, more[0].at, more[0].step), more[1..])
  }

  lemma {:induction false} RunAfter(b: Boot, ticks: seq<Tick>, more: seq<Tick>)
    ensures Run(b, ticks + more) == After(Run(b, ticks), more)
    decreases |more|
  {
    if more == [] {
      assert ticks + more == ticks;
    } else {
      assert Front(ticks + [more[0]]) == ticks;
      assert ticks + more == ticks + [more[0]] + more[1..];
      RunAfter(b, ticks + [more[0]], more[1..]);
    }
  }

  lemma {:induction false} AfterMore(s: State, a: seq<Tick>, b: seq<Tick>)
    ensures After(s, a + b) == After(After(s, a), b)
    decreases |a|
  {
    if a == [] {
      assert a + b == b;
    } else {
      assert (a + b)[1..] == a[1..] + b;
      AfterMore(Next(s, a[0].at, a[0].step), a[1..], b);
    }
  }

  // These steps, all taken at time t.
  function At(t: nat, steps: seq<Step>): (ticks: seq<Tick>)
    ensures |ticks| == |steps| && forall i | 0 <= i < |steps| :: ticks[i] == Tick(t, steps[i])
  {
    seq(|steps|, i requires 0 <= i < |steps| => Tick(t, steps[i]))
  }

  lemma {:induction false} AfterAt(s: State, t: nat, steps: seq<Step>)
    ensures After(s, At(t, steps)) == Iterated(s, t, steps)
    decreases |steps|
  {
    if steps != [] {
      assert At(t, steps)[1..] == At(t, steps[1..]);
      AfterAt(Next(s, t, steps[0]), t, steps[1..]);
    }
  }

  /** What the method Router.Loop does to the state, one iteration does to a run: so every theorem about
      runs is one about iterations of loop() with events in between. */
  lemma LoopExtends(b: Boot, ticks: seq<Tick>, env: LoopEnv)
    ensures Run(b, ticks + At(env.at, LoopSteps(env))) == Iterated(Run(b, ticks), env.at, LoopSteps(env))
  {
    RunAfter(b, ticks, At(env.at, LoopSteps(env)));
    AfterAt(Run(b, ticks), env.at, LoopSteps(env));
  }

  // ---- Loop pace -------------------------------------------------------------

  datatype Segment = Polling | Reconciling | Deadline | Reconnecting

  predicate IsSegment(e: Step, seg: Segment) {
    match seg
    case Polling => e.PollRadio?
    case Reconciling => e.ReconcileNapt?
    case Deadline => e.CheckDeadline?
    case Reconnecting => e.CheckReconnect?
  }

  ghost predicate RunsWithin(ticks: seq<Tick>, seg: Segment, lo: nat, gap: nat) {
    exists i :: 0 <= i < |ticks| && lo <= ticks[i].at <= lo + gap && IsSegment(ticks[i].step, seg)
  }

  // Every segment of loop() comes round at most `gap` apart, from `from` up to `until`.
  ghost predicate LoopsEvery(ticks: seq<Tick>, gap: nat, from: nat, until: nat) {
    forall seg: Segment, lo: nat | from <= lo <= until - gap :: RunsWithin(ticks, seg, lo, gap)
  }

  // One whole iteration of loop() is at index i.
  predicate IterationAt(ticks: seq<Tick>, i: nat, env: LoopEnv) {
    i + 8 <= |ticks| && ticks[i..i + 8] == At(env.at, LoopSteps(env))
  }

  ghost predicate IterationWithin(ticks: seq<Tick>, lo: nat, gap: nat) {
    exists i: nat, env: LoopEnv :: lo <= env.at <= lo + gap && IterationAt(ticks, i, env)
  }

  /** Iterations of loop() at most `gap` apart bring every segment round that often: the pace that the
      timing theorems ask for. */
  lemma IterationsPace(ticks: seq<Tick>, gap: nat, from: nat, until: nat)
    requires forall lo: nat | from <= lo <= until - gap :: IterationWithin(ticks, lo, gap)
    ensures LoopsEvery(ticks, gap, from, until)
  {
    forall seg: Segment, lo: nat | from <= lo <= until - gap
      ensures RunsWithin(ticks, seg, lo, gap)
    {
      assert IterationWithin(ticks, lo, gap);
      var i: nat, env: LoopEnv :| lo <= env.at <= lo + gap && IterationAt(ticks, i, env);
      var k := match seg case Polling => 1 case Reconciling => 2 case Deadline => 6 case Reconnecting => 7;
      assert ticks[i + k] == ticks[i..i + 8][k] == Tick(env.at, LoopSteps(env)[k]);
    }
  }

  // ---- Phases ----------------------------------------------------------------

  // Exactly one of: online, attempting, waiting to retry.
  predicate OnePhase(l: Link) {
    && (l.uplinkReady || l.attemptActive || l.reconnectPending)
    && !(l.uplinkReady && l.attemptActive)
    && !(l.uplinkReady && l.reconnectPending)
    && !(l.attemptActive && l.reconnectPending)
  }

  /** The router is never stranded and never in two phases at once: for every interleaving and any
      clock, rollovers included. */
  lemma {:induction false} AlwaysOnePhase(b: Boot, ticks: seq<Tick>)
    ensures OnePhase(Run(b, ticks).link)
    decreases |ticks|
  {
    if ticks != [] {
      AlwaysOnePhase(b, Front(ticks));
    }
  }

  /** uplink::begin() is only ever called from the retry check, with no attempt running, no link up
      and a retry pending; it leaves an attempt running. */
  lemma BeginsOnlyWhenIdle(b: Boot, ticks: seq<Tick>, i: nat)
    requires i < |ticks|
    requires Before(b, ticks, i + 1).link.begins != Before(b, ticks, i).link.begins
    ensures ticks[i].step == CheckReconnect
    ensures var l := Before(b, ticks, i).link; l.reconnectPending && !l.attemptActive && !l.uplinkReady
    ensures Before(b, ticks, i + 1).link.begins == Before(b, ticks, i).link.begins + 1
    ensures Before(b, ticks, i + 1).link.attemptActive
  {
    StepAt(b, ticks, i);
    AlwaysOnePhase(b, ticks[..i]);
  }

  /** A link is torn down by recovery only while it is up, and the tear-down schedules a retry. */
  lemma TearsDownOnlyWhenUp(b: Boot, ticks: seq<Tick>, i: nat)
    requires i < |ticks|
    requires Before(b, ticks, i + 1).link.tearDowns != Before(b, ticks, i).link.tearDowns
    ensures var l := Before(b, ticks, i).link; l.uplinkReady && !l.attemptActive && !l.reconnectPending
    ensures var l := Before(b, ticks, i + 1).link; l.reconnectPending && !l.attemptActive && !l.uplinkReady
  {
    StepAt(b, ticks, i);
    AlwaysOnePhase(b, ticks[..i]);
  }
}
