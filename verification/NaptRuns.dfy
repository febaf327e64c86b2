/** NAPT over whole runs: what protects a client's DHCP, and how the switch converges. */
module NaptRuns {
  import opened Wrappers
  import opened Clock
  import opened RouterSpec
  import opened RouterRuns

  // ---- Leases and associations ---------------------------------------------------

  predicate Leases(e: Step) {
    e.Radio? && e.event.ApStaIpAssigned?
  }

  // A new client associated, or the last one left: what was known of a lease no longer counts.
  predicate Resets(e: Step) {
    e.Radio? && (e.event.ApStaConnected? || e.event == ApStaDisconnected(0))
  }

  ghost predicate NoResetFrom(ticks: seq<Tick>, k: nat) {
    forall j | k <= j < |ticks| :: !Resets(ticks[j].step)
  }

  ghost predicate LeasedAt(ticks: seq<Tick>, i: nat) {
    i < |ticks| && Leases(ticks[i].step) && NoResetFrom(ticks, i + 1)
  }

  // The latest association, if clients have not all left since.
  ghost predicate JoinedAt(ticks: seq<Tick>, i: nat) {
    i < |ticks| && ticks[i].step == Radio(ApStaConnected) && NoResetFrom(ticks, i + 1)
  }

  lemma Later(ticks: seq<Tick>, i: nat)
    requires ticks != [] && !Resets(Last(ticks).step)
    ensures i < |ticks| - 1 ==> (LeasedAt(Front(ticks), i) <==> LeasedAt(ticks, i))
    ensures i < |ticks| - 1 ==> (JoinedAt(Front(ticks), i) <==> JoinedAt(ticks, i))
    ensures JoinedAt(ticks, i) ==> i < |ticks| - 1
  {
    var front := Front(ticks);
    assert forall j | 0 <= j < |front| :: front[j] == ticks[j];
    assert ticks[|ticks| - 1] == Last(ticks);
  }

  /** The firmware's two client flags say what the events said: a lease was issued since the latest
      association, and when that association was. */
  lemma {:induction false} ClientsTracked(b: Boot, ticks: seq<Tick>)
    ensures Run(b, ticks).clients.leaseSeen <==> exists i: nat :: LeasedAt(ticks, i)
    ensures Run(b, ticks).clients.lastAssocMs != 0 ==> exists i: nat :: JoinedAt(ticks, i)
    ensures forall i: nat | JoinedAt(ticks, i) :: Run(b, ticks).clients.lastAssocMs == Millis(ticks[i].at)
    decreases |ticks|
  {
    if ticks != [] {
      var n := |ticks| - 1;
      ClientsTracked(b, Front(ticks));
      SameClients(Run(b, Front(ticks)), Last(ticks).at, Last(ticks).step);
      assert ticks[n] == Last(ticks);
      if Resets(Last(ticks).step) {
        assert Last(ticks).step == Radio(ApStaConnected) ==> JoinedAt(ticks, n);
        assert forall i: nat | i < n :: !LeasedAt(ticks, i) && !JoinedAt(ticks, i);
      } else {
        forall i: nat
          ensures i < n ==> (LeasedAt(Front(ticks), i) <==> LeasedAt(ticks, i)) && (JoinedAt(Front(ticks), i) <==> JoinedAt(ticks, i))
          ensures JoinedAt(ticks, i) ==> i < n
        {
          Later(ticks, i);
        }
        assert Leases(Last(ticks).step) ==> LeasedAt(ticks, n);
      }
    }
  }

  lemma SameClients(s: State, t: nat, e: Step)
    ensures !Resets(e) ==>
              && Next(s, t, e).clients.lastAssocMs == s.clients.lastAssocMs
              && Next(s, t, e).clients.leaseSeen == (s.clients.leaseSeen || Leases(e))
    ensures Resets(e) ==>
              && !Next(s, t, e).clients.leaseSeen
              && Next(s, t, e).clients.lastAssocMs == if e.event.ApStaConnected? then Millis(t) else 0
  {
  }

  // The lease event at index i handed out the address `ip`, and none came later.
  ghost predicate LatestLease(ticks: seq<Tick>, i: nat, ip: Word) {
    && LeasedAt(ticks, i)
    && ticks[i].step.event.ip == ip
    && forall j | i < j < |ticks| :: !Leases(ticks[j].step)
  }

  lemma {:induction false} ClientAddress(b: Boot, ticks: seq<Tick>)
    requires Run(b, ticks).clients.leaseSeen
    ensures exists i: nat :: LatestLease(ticks, i, Run(b, ticks).clients.clientIp)
    decreases |ticks|
  {
    var n := |ticks| - 1;
    assert ticks != [];
    var s := Run(b, Front(ticks));
    SameClients(s, Last(ticks).at, Last(ticks).step);
    if Leases(Last(ticks).step) {
      assert LatestLease(ticks, n, Run(b, ticks).clients.clientIp);
    } else {
      ClientAddress(b, Front(ticks));
      SameAddress(s, Last(ticks).at, Last(ticks).step);
      var i: nat :| LatestLease(Front(ticks), i, s.clients.clientIp);
      Later(ticks, i);
      assert LatestLease(ticks, i, s.clients.clientIp);
    }
  }

  // The lease event at index i is the latest, and clients have not all left since.
  ghost predicate AddressFrom(ticks: seq<Tick>, i: nat) {
    && i < |ticks| && Leases(ticks[i].step)
    && forall j | i < j < |ticks| :: !Leases(ticks[j].step) && ticks[j].step != Radio(ApStaDisconnected(0))
  }

  /** The client address is that of the latest lease, kept through re-associations and forgotten when the
      last client leaves. */
  lemma {:induction false} AddressExact(b: Boot, ticks: seq<Tick>)
    ensures forall i: nat | AddressFrom(ticks, i) :: Run(b, ticks).clients.clientIp == ticks[i].step.event.ip
    ensures (exists i: nat :: AddressFrom(ticks, i)) || Run(b, ticks).clients.clientIp == 0
    decreases |ticks|
  {
    if ticks != [] {
      var n, front, e := |ticks| - 1, Front(ticks), Last(ticks).step;
      AddressExact(b, front);
      AddressStep(Run(b, front), Last(ticks).at, e);
      assert ticks[n] == Last(ticks);
      assert forall j | 0 <= j < n :: front[j] == ticks[j];
      if Leases(e) {
        assert AddressFrom(ticks, n);
      } else if e != Radio(ApStaDisconnected(0)) {
        forall i: nat | i < n
          ensures AddressFrom(ticks, i) <==> AddressFrom(front, i)
        {
        }
      }
    }
  }

  lemma AddressStep(s: State, t: nat, e: Step)
    ensures Next(s, t, e).clients.clientIp
            == if Leases(e) then e.event.ip else if e == Radio(ApStaDisconnected(0)) then 0 else s.clients.clientIp
  {
  }

  lemma SameAddress(s: State, t: nat, e: Step)
    requires !Leases(e) && !Resets(e)
    ensures Next(s, t, e).clients.clientIp == s.clients.clientIp
  {
  }

  /** A client is probed only while stations are counted and a lease has been seen since the latest
      association, and then at the address of the latest lease. */
  lemma ProbedOnlyWhenLeased(b: Boot, ticks: seq<Tick>, i: nat)
    requires i < |ticks|
    requires Before(b, ticks, i + 1).health.down.running && !Before(b, ticks, i).health.down.running
    ensures ticks[i].step.ProbeRound? && Before(b, ticks, i).link.uplinkReady
    ensures Before(b, ticks, i).clients.stations > 0
    ensures exists j: nat :: LatestLease(ticks[..i], j, Before(b, ticks, i).clients.clientIp)
    ensures Before(b, ticks, i).clients.clientIp != 0
  {
    StepAt(b, ticks, i);
    DownStarts(Before(b, ticks, i), ticks[i].at, ticks[i].step);
    ClientAddress(b, ticks[..i]);
  }

  lemma DownStarts(s: State, t: nat, e: Step)
    requires Next(s, t, e).health.down.running && !s.health.down.running
    ensures e.ProbeRound? && s.link.uplinkReady
    ensures s.clients.stations > 0 && s.clients.leaseSeen && s.clients.clientIp != 0
  {
  }

  // ---- Protection --------------------------------------------------------------

  // This step, taken in state s, asks the driver to turn NAPT off, and is refused.
  predicate OffRefused(s: State, t: nat, e: Step) {
    && s.napt.enabled
    && if e.ReconcileNapt? then !WantsNapt(s, t) && !e.accepts else Drops(e) && !e.event.accepts
  }

  // This step asks the driver to turn NAPT on, and is not refused.
  predicate OnAccepted(s: State, t: nat, e: Step) {
    !s.napt.enabled && e.ReconcileNapt? && WantsNapt(s, t) && e.accepts
  }

  ghost predicate OnAcceptedAt(b: Boot, ticks: seq<Tick>, j: nat)
    requires j < |ticks|
  {
    OnAccepted(Before(b, ticks, j), ticks[j].at, ticks[j].step)
  }

  // The driver refused to turn NAPT off at tick i, and has not been made to turn it on since.
  ghost predicate StuckSince(b: Boot, ticks: seq<Tick>, i: nat) {
    && i < |ticks|
    && OffRefused(Before(b, ticks, i), ticks[i].at, ticks[i].step)
    && forall j: nat | i < j < |ticks| :: !OnAcceptedAt(b, ticks, j)
  }

  ghost predicate Stuck(b: Boot, ticks: seq<Tick>) {
    exists i: nat :: StuckSince(b, ticks, i)
  }

  lemma StuckLater(b: Boot, ticks: seq<Tick>, i: nat)
    requires ticks != [] && i < |ticks| - 1
    ensures StuckSince(b, ticks, i) <==> StuckSince(b, Front(ticks), i) && !OnAcceptedAt(b, ticks, |ticks| - 1)
  {
    var front := Front(ticks);
    assert front[..i] == ticks[..i];
    forall j: nat | i < j < |front|
      ensures OnAcceptedAt(b, ticks, j) <==> OnAcceptedAt(b, front, j)
    {
      assert front[..j] == ticks[..j];
    }
  }

  lemma SwitchStep(s: State, t: nat, e: Step)
    requires s.napt.enabled ==> s.napt.on
    ensures var next := Next(s, t, e).napt;
            && (next.enabled ==> next.on)
            && (next.on && !next.enabled <==> OffRefused(s, t, e) || (s.napt.on && !s.napt.enabled && !OnAccepted(s, t, e)))
  {
  }

  /** What the cached flag says of the driver, in every run: while it is set, NAPT is on; and NAPT is on with
      the flag clear exactly while a refused call to turn it off has not been made good by an accepted
      one to turn it on. */
  lemma {:induction false} CacheExact(b: Boot, ticks: seq<Tick>)
    ensures Run(b, ticks).napt.enabled ==> Run(b, ticks).napt.on
    ensures Run(b, ticks).napt.on && !Run(b, ticks).napt.enabled <==> Stuck(b, ticks)
    decreases |ticks|
  {
    if ticks != [] {
      var n, front := |ticks| - 1, Front(ticks);
      CacheExact(b, front);
      SwitchStep(Run(b, front), Last(ticks).at, Last(ticks).step);
      assert ticks[n] == Last(ticks) && ticks[..n] == front;
      assert OffRefused(Run(b, front), Last(ticks).at, Last(ticks).step) <==> StuckSince(b, ticks, n);
      forall i: nat | i < n
        ensures StuckSince(b, ticks, i) <==> StuckSince(b, front, i) && !OnAccepted(Run(b, front), Last(ticks).at, Last(ticks).step)
      {
        StuckLater(b, ticks, i);
      }
      if i: nat :| StuckSince(b, front, i) {
        assert StuckSince(b, ticks, i) <==> !OnAccepted(Run(b, front), Last(ticks).at, Last(ticks).step);
      }
    }
  }

  /** The driver is called exactly when the reconciler wants what the cached flag does not say, and on a
      disconnect with the flag set; and then once. */
  lemma CallsExact(b: Boot, ticks: seq<Tick>, m: nat)
    requires m < |ticks|
    ensures var s, t, e := Before(b, ticks, m), ticks[m].at, ticks[m].step;
            Before(b, ticks, m + 1).napt.calls
            == s.napt.calls + (if (e.ReconcileNapt? && WantsNapt(s, t) != s.napt.enabled) || (Drops(e) && s.napt.enabled) then 1 else 0)
  {
    StepAt(b, ticks, m);
  }

  /** And nothing corrects it: while NAPT is stuck on, no call to turn it off reaches the driver, so it
      stays on whatever the reconciler wants. */
  lemma StuckUncorrected(b: Boot, ticks: seq<Tick>, i: nat, m: nat)
    requires i < m < |ticks| && StuckSince(b, ticks[..m], i)
    ensures Before(b, ticks, m + 1).napt.on
    ensures Before(b, ticks, m + 1).napt.calls > Before(b, ticks, m).napt.calls ==>
              ticks[m].step.ReconcileNapt? && WantsNapt(Before(b, ticks, m), ticks[m].at)
  {
    CacheExact(b, ticks[..m]);
    StepAt(b, ticks, m);
  }

  /** DHCP protection: whenever the reconciler has just run, NAPT on, unless it is stuck so, means that the
      uplink is up, the driver's latest reading found a station, and either a lease was issued since the latest association
      or that association is at least 8000 ms of true time old. */
  lemma DhcpProtected(b: Boot, ticks: seq<Tick>, i: nat)
    requires Timed(b, ticks) && i < |ticks| && ticks[i].step.ReconcileNapt?
    requires Before(b, ticks, i + 1).napt.on && !Stuck(b, ticks[..i + 1])
    ensures Before(b, ticks, i + 1).link.uplinkReady
    ensures exists k: nat :: StationRead(b, ticks[..i], k)
    ensures (exists j: nat :: LeasedAt(ticks[..i], j))
            || (exists j: nat :: JoinedAt(ticks[..i], j) && ticks[i].at - ticks[j].at >= LEASE_GRACE_MS)
  {
    StepAt(b, ticks, i);
    CacheExact(b, ticks[..i + 1]);
    StationsExact(b, ticks[..i]);
    ClientsTracked(b, ticks[..i]);
    if !Before(b, ticks, i).clients.leaseSeen {
      var j: nat :| JoinedAt(ticks[..i], j);
      assert ticks[..i][j] == ticks[j];
      Elapsed(ticks[j].at, ticks[i].at);
    }
  }

  /** NAPT is turned on by the reconciler alone. */
  lemma TurnedOnByReconciler(b: Boot, ticks: seq<Tick>, i: nat)
    requires i < |ticks| && !Before(b, ticks, i).napt.on && Before(b, ticks, i + 1).napt.on
    ensures ticks[i].step == ReconcileNapt(true) && WantsNapt(Before(b, ticks, i), ticks[i].at)
  {
    StepAt(b, ticks, i);
    CacheExact(b, ticks[..i]);
  }

  // The reachability recovery gave the link up at tick i, and the state has not been settled since.
  ghost predicate UnsettledSince(b: Boot, ticks: seq<Tick>, i: nat) {
    && i < |ticks|
    && Before(b, ticks, i + 1).link.tearDowns > Before(b, ticks, i).link.tearDowns
    && forall j | i < j < |ticks| :: !Settles(ticks[j].step)
  }

  predicate Settles(e: Step) {
    e.ReconcileNapt? || Drops(e) || e == Radio(StaGotIp)
  }

  /** Between reconciles, NAPT is on with the uplink not ready only if it is stuck so, or in the interval
      that a reachability recovery opens and the next reconcile, disconnect or address closes. */
  lemma {:induction false} OnWithoutUplink(b: Boot, ticks: seq<Tick>)
    requires Run(b, ticks).napt.on && !Run(b, ticks).link.uplinkReady
    ensures Stuck(b, ticks) || exists i: nat :: UnsettledSince(b, ticks, i)
    decreases |ticks|
  {
    CacheExact(b, ticks);
    if Run(b, ticks).napt.enabled {
      EnabledWithoutUplink(b, ticks);
    }
  }

  lemma {:induction false} EnabledWithoutUplink(b: Boot, ticks: seq<Tick>)
    requires Run(b, ticks).napt.enabled && !Run(b, ticks).link.uplinkReady
    ensures exists i: nat :: UnsettledSince(b, ticks, i)
    decreases |ticks|
  {
    assert ticks != [];
    var n := |ticks| - 1;
    StepAt(b, ticks, n);
    assert ticks[..n + 1] == ticks;
    var s := Before(b, ticks, n);
    UnreadyStep(s, ticks[n].at, ticks[n].step);
    if s.napt.enabled && !s.link.uplinkReady {
      EnabledWithoutUplink(b, ticks[..n]);
      var i: nat :| UnsettledSince(b, ticks[..n], i);
      assert ticks[..n][..i] == ticks[..i] && ticks[..n][..i + 1] == ticks[..i + 1];
      assert forall j | i < j < n :: ticks[..n][j] == ticks[j];
      assert UnsettledSince(b, ticks, i);
    } else {
      assert UnsettledSince(b, ticks, n);
    }
  }

  lemma UnreadyStep(s: State, t: nat, e: Step)
    requires Next(s, t, e).napt.enabled && !Next(s, t, e).link.uplinkReady
    ensures s.napt.enabled && !Settles(e)
    ensures s.link.uplinkReady ==> Next(s, t, e).link.tearDowns > s.link.tearDowns
  {
  }

  // ---- Convergence -------------------------------------------------------------

  // A tick of a quiet stretch: no event, stations present, the driver willing.
  predicate QuietStep(e: Step) {
    && !e.Radio?
    && (e.PollRadio? ==> e.stations > 0)
    && (e.ReconcileNapt? ==> e.accepts)
  }

  ghost predicate QuietAt(b: Boot, ticks: seq<Tick>, j: nat)
    requires j < |ticks|
  {
    QuietStep(ticks[j].step) && Before(b, ticks, j + 1).link.tearDowns == Before(b, ticks, j).link.tearDowns
  }

  // From index n on: no event, no reachability recovery, stations present, the driver willing.
  ghost predicate QuietFrom(b: Boot, ticks: seq<Tick>, n: nat) {
    forall j: nat | n <= j < |ticks| :: QuietAt(b, ticks, j)
  }

  // The true times behind a state's client timestamps: of the latest reading of the driver, if there
  // was one, and of the latest association.
  datatype Stamps = Stamps(sampled: Option<nat>, joined: nat)

  // In state s at time t0 the uplink is up and a lease has been seen or a client has associated, and
  // `st` gives the times.
  predicate Forwardable(s: State, t0: nat, st: Stamps) {
    && s.link.uplinkReady
    && (s.clients.leaseSeen || (st.joined <= t0 && s.clients.lastAssocMs == Millis(st.joined)))
    && (match st.sampled
        case None => s.clients.lastPollMs == 0
        case Some(x) => x <= t0 && s.clients.lastPollMs == Millis(x))
  }

  // In state s at time t no stamp that still matters is a full clock period old: the association
  // matters without a lease, the reading until stations have been seen.
  predicate Recent(s: State, st: Stamps, t: nat) {
    && (s.clients.leaseSeen || t < st.joined + WRAP)
    && (st.sampled.Some? && s.clients.stations == 0 ==> t < st.sampled.value + WRAP)
  }

  ghost predicate RecentAt(b: Boot, ticks: seq<Tick>, st: Stamps, j: nat)
    requires j < |ticks|
  {
    Recent(Before(b, ticks, j), st, ticks[j].at)
  }

  // There is a lease, or the grace timer runs: the association did not fall on a zero reading.
  predicate GraceTimed(s: State, st: Stamps) {
    s.clients.leaseSeen || Millis(st.joined) != 0
  }

  // The earliest time at which the grace period no longer stands in the way.
  function GraceOver(s: State, st: Stamps): nat {
    if s.clients.leaseSeen then 0 else st.joined + LEASE_GRACE_MS
  }

  // What a quiet stretch that began in state s0 keeps.
  predicate Holding(s0: State, s: State) {
    && s.link.uplinkReady == s0.link.uplinkReady
    && s.clients.leaseSeen == s0.clients.leaseSeen
    && s.clients.lastAssocMs == s0.clients.lastAssocMs
    && (s.clients.stations > 0 || s.clients.lastPollMs == s0.clients.lastPollMs)
    && (s.napt.enabled ==> s.napt.on)
  }

  lemma HoldingStep(s0: State, t0: nat, st: Stamps, s: State, t: nat, e: Step)
    requires Holding(s0, s) && Forwardable(s0, t0, st) && Recent(s, st, t) && t0 <= t
    requires QuietStep(e) && Next(s, t, e).link.tearDowns == s.link.tearDowns
    ensures Holding(s0, Next(s, t, e))
    ensures s.clients.stations > 0 ==> Next(s, t, e).clients.stations > 0
    ensures e.PollRadio? && t >= t0 + RADIO_POLL_MS ==> Next(s, t, e).clients.stations > 0
    ensures e.ReconcileNapt? && s.clients.stations > 0 && t >= GraceOver(s0, st) && GraceTimed(s0, st) ==>
              Next(s, t, e).napt.enabled
    ensures e.ReconcileNapt? && !GraceTimed(s0, st) ==> !Next(s, t, e).napt.enabled
    ensures s.clients.stations > 0 && t >= GraceOver(s0, st) && GraceTimed(s0, st) && s.napt.enabled ==>
              Next(s, t, e).napt == s.napt
  {
    if !s0.clients.leaseSeen {
      Elapsed(st.joined, t);
    }
    if st.sampled.Some? {
      Elapsed(st.sampled.value, t);
    }
  }

  // A quiet stretch that begins at index n.
  ghost predicate Stretch(b: Boot, ticks: seq<Tick>, n: nat, st: Stamps) {
    && Timed(b, ticks) && n <= |ticks| && QuietFrom(b, ticks, n)
    && Forwardable(Before(b, ticks, n), Now(b, ticks[..n]), st)
    && (forall j: nat | n <= j < |ticks| :: RecentAt(b, ticks, st, j))
  }

  lemma {:induction false} Holds(b: Boot, ticks: seq<Tick>, n: nat, st: Stamps, m: nat)
    requires Stretch(b, ticks, n, st) && n <= m <= |ticks|
    ensures Holding(Before(b, ticks, n), Before(b, ticks, m))
    decreases m - n
  {
    if m == n {
      CacheExact(b, ticks[..n]);
    } else {
      Holds(b, ticks, n, st, m - 1);
      StepAt(b, ticks, m - 1);
      assert QuietAt(b, ticks, m - 1) && RecentAt(b, ticks, st, m - 1);
      HoldingStep(Before(b, ticks, n), Now(b, ticks[..n]), st, Before(b, ticks, m - 1), ticks[m - 1].at, ticks[m - 1].step);
    }
  }

  // One tick of a quiet stretch.
  lemma HoldsAt(b: Boot, ticks: seq<Tick>, n: nat, st: Stamps, m: nat)
    requires Stretch(b, ticks, n, st) && n <= m < |ticks|
    ensures var s0, s, next := Before(b, ticks, n), Before(b, ticks, m), Before(b, ticks, m + 1);
            && (s.clients.stations > 0 ==> next.clients.stations > 0)
            && (ticks[m].step.PollRadio? && ticks[m].at >= Now(b, ticks[..n]) + RADIO_POLL_MS ==> next.clients.stations > 0)
            && (ticks[m].step.ReconcileNapt? && !GraceTimed(s0, st) ==> !next.napt.enabled)
            && (s.clients.stations > 0 && ticks[m].at >= GraceOver(s0, st) && GraceTimed(s0, st) ==>
                  && (ticks[m].step.ReconcileNapt? ==> next.napt.enabled)
                  && (s.napt.enabled ==> next.napt == s.napt))
  {
    Holds(b, ticks, n, st, m);
    StepAt(b, ticks, m);
    assert QuietAt(b, ticks, m) && RecentAt(b, ticks, st, m);
    HoldingStep(Before(b, ticks, n), Now(b, ticks[..n]), st, Before(b, ticks, m), ticks[m].at, ticks[m].step);
  }

  lemma {:induction false} KeepsStations(b: Boot, ticks: seq<Tick>, n: nat, st: Stamps, p: nat, m: nat)
    requires Stretch(b, ticks, n, st) && n <= p <= m <= |ticks|
    requires Before(b, ticks, p).clients.stations > 0
    ensures Before(b, ticks, m).clients.stations > 0
    decreases m - p
  {
    if m > p {
      KeepsStations(b, ticks, n, st, p, m - 1);
      HoldsAt(b, ticks, n, st, m - 1);
    }
  }

  lemma {:induction false} StaysOn(b: Boot, ticks: seq<Tick>, n: nat, st: Stamps, q: nat, m: nat)
    requires Stretch(b, ticks, n, st) && n <= q <= m <= |ticks|
    requires Before(b, ticks, q).clients.stations > 0 && Before(b, ticks, q).napt.enabled
    requires q < |ticks| ==> ticks[q].at >= GraceOver(Before(b, ticks, n), st)
    requires GraceTimed(Before(b, ticks, n), st)
    ensures Before(b, ticks, m).napt == Before(b, ticks, q).napt
    decreases m - q
  {
    if m > q {
      StaysOn(b, ticks, n, st, q, m - 1);
      KeepsStations(b, ticks, n, st, q, m - 1);
      HoldsAt(b, ticks, n, st, m - 1);
    }
  }

  /** Convergence: once things are quiet, NAPT is on within the poll period, what is left of the grace
      period and two loop gaps (with a millisecond of clock resolution), and from then on it
      stays on with no further call of the driver. */
  lemma NaptConverges(b: Boot, ticks: seq<Tick>, n: nat, st: Stamps, gap: nat, until: nat) returns (q: nat)
    requires Stretch(b, ticks, n, st) && GraceTimed(Before(b, ticks, n), st)
    requires LoopsEvery(ticks, gap, Now(b, ticks[..n]), until)
    requires Max(Now(b, ticks[..n]) + RADIO_POLL_MS + 1 + gap, GraceOver(Before(b, ticks, n), st)) + gap <= until
    ensures n <= q < |ticks| && ticks[q].step.ReconcileNapt?
    ensures ticks[q].at <= Max(Now(b, ticks[..n]) + RADIO_POLL_MS + 1 + gap, GraceOver(Before(b, ticks, n), st)) + gap
    ensures Before(b, ticks, q + 1).napt.enabled && Before(b, ticks, q + 1).napt.on
    ensures forall m | q < m <= |ticks| :: Before(b, ticks, m).napt == Before(b, ticks, q + 1).napt
  {
    var t0 := Now(b, ticks[..n]);
    assert n > 0 ==> Last(ticks[..n]) == ticks[n - 1];
    assert RunsWithin(ticks, Polling, t0 + RADIO_POLL_MS, gap);
    var p :| 0 <= p < |ticks| && t0 + RADIO_POLL_MS <= ticks[p].at <= t0 + RADIO_POLL_MS + gap && IsSegment(ticks[p].step, Polling);
    var lo := Max(t0 + RADIO_POLL_MS + 1 + gap, GraceOver(Before(b, ticks, n), st));
    assert RunsWithin(ticks, Reconciling, lo, gap);
    q :| 0 <= q < |ticks| && lo <= ticks[q].at <= lo + gap && IsSegment(ticks[q].step, Reconciling);
    TurnedOn(b, ticks, n, st, p, q);
    CacheExact(b, ticks[..q + 1]);
  }

  /** And it converges only then: in a quiet stretch long enough, some reconcile leaves NAPT on if and only
      if there is a lease or the association did not fall on a zero reading. */
  lemma NaptConvergesExact(b: Boot, ticks: seq<Tick>, n: nat, st: Stamps, gap: nat, until: nat)
    requires Stretch(b, ticks, n, st)
    requires LoopsEvery(ticks, gap, Now(b, ticks[..n]), until)
    requires Max(Now(b, ticks[..n]) + RADIO_POLL_MS + 1 + gap, GraceOver(Before(b, ticks, n), st)) + gap <= until
    ensures (exists q: nat :: n <= q < |ticks| && ReconciledOn(b, ticks, q)) <==> GraceTimed(Before(b, ticks, n), st)
  {
    if GraceTimed(Before(b, ticks, n), st) {
      var q := NaptConverges(b, ticks, n, st, gap, until);
      assert ReconciledOn(b, ticks, q);
    } else {
      forall q: nat | n <= q < |ticks|
        ensures !ReconciledOn(b, ticks, q)
      {
        HoldsAt(b, ticks, n, st, q);
      }
    }
  }

  // The tick with index q is a reconcile that leaves NAPT on.
  ghost predicate ReconciledOn(b: Boot, ticks: seq<Tick>, q: nat)
    requires q < |ticks|
  {
    ticks[q].step.ReconcileNapt? && Before(b, ticks, q + 1).napt.enabled
  }

  // A poll that samples the stations and a later reconcile past the grace period turn NAPT on for good.
  lemma TurnedOn(b: Boot, ticks: seq<Tick>, n: nat, st: Stamps, p: nat, q: nat)
    requires Stretch(b, ticks, n, st) && n <= p < q < |ticks|
    requires ticks[p].step.PollRadio? && ticks[p].at >= Now(b, ticks[..n]) + RADIO_POLL_MS
    requires ticks[q].step.ReconcileNapt? && ticks[q].at >= GraceOver(Before(b, ticks, n), st)
    requires GraceTimed(Before(b, ticks, n), st)
    ensures Before(b, ticks, q + 1).napt.enabled
    ensures forall m | q < m <= |ticks| :: Before(b, ticks, m).napt == Before(b, ticks, q + 1).napt
  {
    HoldsAt(b, ticks, n, st, p);
    KeepsStations(b, ticks, n, st, p + 1, q);
    HoldsAt(b, ticks, n, st, q);
    forall m | q < m <= |ticks|
      ensures Before(b, ticks, m).napt == Before(b, ticks, q + 1).napt
    {
      StaysOn(b, ticks, n, st, q + 1, m);
    }
  }

  // ---- Sampling the driver -------------------------------------------------------

  // The tick with index i reads the driver's counters.
  ghost predicate SamplesAt(b: Boot, ticks: seq<Tick>, i: nat)
    requires i < |ticks|
  {
    Before(b, ticks, i + 1).clients.samples > Before(b, ticks, i).clients.samples
  }

  // The time of the latest reading.
  function LastSample(b: Boot, ticks: seq<Tick>): Option<nat>
    decreases |ticks|
  {
    if ticks == [] then None
    else if Run(b, ticks).clients.samples > Run(b, Front(ticks)).clients.samples then Some(Last(ticks).at)
    else LastSample(b, Front(ticks))
  }

  lemma SampleStep(s: State, t: nat, e: Step)
    ensures Next(s, t, e).clients.samples > s.clients.samples ==>
              && e.PollRadio? && Next(s, t, e).clients.lastPollMs == Millis(t)
              && (s.clients.lastPollMs == 0 || Sub32(Millis(t), s.clients.lastPollMs) >= RADIO_POLL_MS)
    ensures Next(s, t, e).clients.samples <= s.clients.samples ==> Next(s, t, e).clients.lastPollMs == s.clients.lastPollMs
  {
  }

  /** The poll timestamp is the clock at the latest reading, and zero before the first. */
  lemma {:induction false} SampleClock(b: Boot, ticks: seq<Tick>)
    ensures Run(b, ticks).clients.lastPollMs == match LastSample(b, ticks) case None => 0 case Some(x) => Millis(x)
    ensures Timed(b, ticks) && LastSample(b, ticks).Some? ==> LastSample(b, ticks).value <= Now(b, ticks)
    decreases |ticks|
  {
    if ticks != [] {
      SampleClock(b, Front(ticks));
      SampleStep(Run(b, Front(ticks)), Last(ticks).at, Last(ticks).step);
      assert Last(ticks) == ticks[|ticks| - 1];
      assert Front(ticks) != [] ==> Last(Front(ticks)) == ticks[|ticks| - 2];
    }
  }

  // From tick i up to tick j no reading of the driver falls on a millisecond that reads zero.
  ghost predicate NoSampleAtZero(b: Boot, ticks: seq<Tick>, i: nat, j: nat)
    requires j <= |ticks|
  {
    forall k: nat | i <= k < j && SamplesAt(b, ticks, k) :: Millis(ticks[k].at) != 0
  }

  lemma {:induction false} LastSampleAfter(b: Boot, ticks: seq<Tick>, i: nat) returns (k: nat)
    requires Timed(b, ticks) && i < |ticks| && SamplesAt(b, ticks, i)
    ensures i <= k < |ticks| && SamplesAt(b, ticks, k) && LastSample(b, ticks) == Some(ticks[k].at)
    decreases |ticks|
  {
    var n := |ticks| - 1;
    assert ticks[..n + 1] == ticks;
    if SamplesAt(b, ticks, n) {
      k := n;
    } else {
      assert ticks[..n][..i] == ticks[..i] && ticks[..n][..i + 1] == ticks[..i + 1];
      k := LastSampleAfter(b, ticks[..n], i);
      assert ticks[..n][..k] == ticks[..k] && ticks[..n][..k + 1] == ticks[..k + 1];
    }
  }

  // The tick with index k is the latest to read the driver.
  ghost predicate LatestReading(b: Boot, ticks: seq<Tick>, k: nat) {
    k < |ticks| && SamplesAt(b, ticks, k) && forall j: nat | k < j < |ticks| :: !SamplesAt(b, ticks, j)
  }

  lemma ReadingStep(s: State, t: nat, e: Step)
    ensures if Next(s, t, e).clients.samples > s.clients.samples then
              && e.PollRadio?
              && Next(s, t, e).clients.stations == e.stations && Next(s, t, e).clients.channel == e.channel
            else
              Next(s, t, e).clients.stations == s.clients.stations && Next(s, t, e).clients.channel == s.clients.channel
  {
  }

  /** The counts the firmware goes by are those of the latest reading of the driver, zero included, and
      zero before the first. */
  lemma {:induction false} CountsRead(b: Boot, ticks: seq<Tick>)
    ensures forall k: nat | LatestReading(b, ticks, k) ::
              && ticks[k].step.PollRadio?
              && Run(b, ticks).clients.stations == ticks[k].step.stations
              && Run(b, ticks).clients.channel == ticks[k].step.channel
    ensures (exists k: nat :: LatestReading(b, ticks, k))
            || (Run(b, ticks).clients.stations == 0 && Run(b, ticks).clients.channel == 0)
    decreases |ticks|
  {
    if ticks != [] {
      var n, front := |ticks| - 1, Front(ticks);
      CountsRead(b, front);
      ReadingStep(Run(b, front), Last(ticks).at, Last(ticks).step);
      assert ticks[..n] == front && ticks[..n + 1] == ticks && ticks[n] == Last(ticks);
      if SamplesAt(b, ticks, n) {
        assert LatestReading(b, ticks, n);
      } else {
        forall k: nat | k < n
          ensures LatestReading(b, ticks, k) <==> LatestReading(b, front, k)
        {
          SameReadings(b, ticks, k);
        }
      }
    }
  }

  lemma SameReadings(b: Boot, ticks: seq<Tick>, k: nat)
    requires k < |ticks| - 1 && !SamplesAt(b, ticks, |ticks| - 1)
    ensures LatestReading(b, ticks, k) <==> LatestReading(b, Front(ticks), k)
  {
    var front := Front(ticks);
    forall j: nat | j < |front|
      ensures SamplesAt(b, ticks, j) <==> SamplesAt(b, front, j)
    {
      assert front[..j] == ticks[..j] && front[..j + 1] == ticks[..j + 1];
    }
  }

  // The latest reading of the driver found a station.
  ghost predicate StationRead(b: Boot, ticks: seq<Tick>, k: nat) {
    LatestReading(b, ticks, k) && ticks[k].step.PollRadio? && ticks[k].step.stations > 0
  }

  lemma StationsExact(b: Boot, ticks: seq<Tick>)
    ensures Run(b, ticks).clients.stations > 0 <==> exists k: nat :: StationRead(b, ticks, k)
  {
    CountsRead(b, ticks);
    if Run(b, ticks).clients.stations > 0 {
      var k: nat :| LatestReading(b, ticks, k);
      assert StationRead(b, ticks, k);
    }
  }

  /** Which polls read the driver: those that come 500 ms by the clock after the latest reading, or
      after one at a zero reading of the clock, or first of all. */
  lemma ReadsExact(b: Boot, ticks: seq<Tick>, j: nat)
    requires Timed(b, ticks) && j < |ticks|
    ensures SamplesAt(b, ticks, j)
            <==> && ticks[j].step.PollRadio?
                 && match LastSample(b, ticks[..j])
                    case None => true
                    case Some(x) => Millis(x) == 0 || (ticks[j].at - x) % WRAP >= 500
  {
    StepAt(b, ticks, j);
    SampleClock(b, ticks[..j]);
    if LastSample(b, ticks[..j]).Some? {
      assert j > 0 && Last(ticks[..j]) == ticks[j - 1];
      Elapsed(LastSample(b, ticks[..j]).value, ticks[j].at);
    }
  }

  // Whether a poll at time t reads the driver.
  predicate Samples(c: Clients, t: nat) {
    RadioPolled(c, t, c.stations, c.channel).samples > c.samples
  }

  /** The poll gate measures true time if and only if the latest reading did not fall on a millisecond
      that reads zero, which the code takes for "none yet". */
  lemma SampleGateExact(c: Clients, sampled: nat)
    requires c.lastPollMs == Millis(sampled)
    ensures (forall t: nat | t >= sampled && Samples(c, t) :: t - sampled >= RADIO_POLL_MS) <==> Millis(sampled) != 0
  {
    if Millis(sampled) == 0 {
      assert Samples(c, sampled);
    }
    forall t: nat | t >= sampled && Millis(sampled) != 0 && Samples(c, t)
      ensures t - sampled >= RADIO_POLL_MS
    {
      Elapsed(sampled, t);
    }
  }

  lemma SamplesOnlyWhenDue(b: Boot, ticks: seq<Tick>, j: nat)
    requires j < |ticks| && SamplesAt(b, ticks, j)
    ensures Samples(Before(b, ticks, j).clients, ticks[j].at)
  {
    StepAt(b, ticks, j);
    SampleStep(Before(b, ticks, j), ticks[j].at, ticks[j].step);
  }

  /** The driver is read at most twice a second, across any rollover: two readings are at least 500 ms
      apart, unless the first or one between them falls on a millisecond that reads zero. */
  lemma SampledSparsely(b: Boot, ticks: seq<Tick>, i: nat, j: nat)
    requires Timed(b, ticks) && i < j < |ticks| && SamplesAt(b, ticks, i) && SamplesAt(b, ticks, j)
    requires NoSampleAtZero(b, ticks, i, j)
    ensures ticks[j].at - ticks[i].at >= RADIO_POLL_MS
  {
    var front := ticks[..j];
    assert front[..i] == ticks[..i] && front[..i + 1] == ticks[..i + 1];
    var k := LastSampleAfter(b, front, i);
    assert front[..k] == ticks[..k] && front[..k + 1] == ticks[..k + 1];
    assert SamplesAt(b, ticks, k);
    SampleClock(b, front);
    SamplesOnlyWhenDue(b, ticks, j);
    SampleGateExact(Run(b, front).clients, ticks[k].at);
  }

  // ---- The grace timer -------------------------------------------------------------

  /** Exactly when a client is settled, at any time after it associated: with a lease always; without
      one, never if it associated in a millisecond reading zero, and otherwise at all times but the
      first eight seconds of every clock period since. */
  lemma GracePeriodic(c: Clients, joined: nat, t: nat)
    requires c.lastAssocMs == Millis(joined) && joined <= t
    ensures LeaseSettled(c, t)
            <==> c.leaseSeen || (Millis(joined) != 0 && (t - joined) % WRAP >= LEASE_GRACE_MS)
  {
    Elapsed(joined, t);
  }

  /** So without a lease the grace period does not stay over: once settled, a client stays settled for
      ever if and only if a lease has been seen. */
  lemma GraceStaysOverExact(c: Clients, joined: nat)
    requires c.lastAssocMs == Millis(joined)
    ensures (forall t: nat | t >= joined + LEASE_GRACE_MS :: LeaseSettled(c, t)) <==> c.leaseSeen
  {
    if !c.leaseSeen {
      var t := joined + WRAP;
      GracePeriodic(c, joined, t);
      assert !LeaseSettled(c, t);
    }
  }

  /** Over one clock period it does, if and only if a lease has been seen or the association did not fall
      on a zero reading; if it did, a client without a lease is never settled. */
  lemma GraceExact(c: Clients, joined: nat)
    requires c.lastAssocMs == Millis(joined)
    ensures (forall t: nat | joined <= t < joined + WRAP ::
               LeaseSettled(c, t) == (c.leaseSeen || t >= joined + LEASE_GRACE_MS))
            <==> c.leaseSeen || Millis(joined) != 0
    ensures !c.leaseSeen && Millis(joined) == 0 ==> forall t: nat :: !LeaseSettled(c, t)
  {
    forall t: nat | joined <= t < joined + WRAP
      ensures LeaseSettled(c, t) <==> c.leaseSeen || (Millis(joined) != 0 && t >= joined + LEASE_GRACE_MS)
    {
      GracePeriodic(c, joined, t);
    }
    if !c.leaseSeen && Millis(joined) == 0 {
      assert !LeaseSettled(c, joined + LEASE_GRACE_MS);
    }
  }

  /** What a reconcile does about a client that associated at tick j and has had no lease since, at any
      later time: NAPT is held to be on afterwards exactly if uplink and station count are good, that client is
      in none of its grace periods and did not associate at a zero reading, and the driver accepts
      or NAPT was held to be on already. */
  lemma ReconciledExact(b: Boot, ticks: seq<Tick>, i: nat, j: nat)
    requires Timed(b, ticks) && i < |ticks| && ticks[i].step.ReconcileNapt?
    requires JoinedAt(ticks[..i], j) && !exists k: nat :: LeasedAt(ticks[..i], k)
    ensures var s := Before(b, ticks, i);
            Before(b, ticks, i + 1).napt.enabled
            <==> && s.link.uplinkReady && s.clients.stations > 0
                 && Millis(ticks[j].at) != 0 && (ticks[i].at - ticks[j].at) % WRAP >= LEASE_GRACE_MS
                 && (ticks[i].step.accepts || s.napt.enabled)
  {
    StepAt(b, ticks, i);
    ClientsTracked(b, ticks[..i]);
    assert ticks[..i][j] == ticks[j];
    GracePeriodic(Before(b, ticks, i).clients, ticks[j].at, ticks[i].at);
  }

  // Since the association at tick i, no client has associated and none has been given a lease.
  ghost predicate NoLeaseSince(ticks: seq<Tick>, i: nat) {
    forall j | i < j < |ticks| :: !Leases(ticks[j].step) && ticks[j].step != Radio(ApStaConnected)
  }

  lemma {:induction false} UnleasedAtZero(b: Boot, ticks: seq<Tick>, i: nat)
    requires i < |ticks| && ticks[i].step == Radio(ApStaConnected) && Millis(ticks[i].at) == 0
    requires NoLeaseSince(ticks, i)
    ensures !Run(b, ticks).clients.leaseSeen && Run(b, ticks).clients.lastAssocMs == 0
    decreases |ticks|
  {
    var n := |ticks| - 1;
    SameClients(Run(b, Front(ticks)), Last(ticks).at, Last(ticks).step);
    if i < n {
      assert forall j | i < j < n :: Front(ticks)[j] == ticks[j];
      UnleasedAtZero(b, Front(ticks), i);
    }
  }

  /** A client that associates in a millisecond reading zero is not forwarded until it, or another, is
      given a lease or associates again: nothing turns NAPT on, and after every reconcile it is off, or
      stuck on. */
  lemma JoinedAtZeroStaysOff(b: Boot, ticks: seq<Tick>, i: nat, m: nat)
    requires i < m < |ticks| && ticks[i].step == Radio(ApStaConnected) && Millis(ticks[i].at) == 0
    requires NoLeaseSince(ticks, i)
    ensures Before(b, ticks, m + 1).napt.on ==> Before(b, ticks, m).napt.on
    ensures ticks[m].step.ReconcileNapt? ==> !Before(b, ticks, m + 1).napt.enabled
    ensures ticks[m].step.ReconcileNapt? && Before(b, ticks, m + 1).napt.on ==> Stuck(b, ticks[..m + 1])
  {
    var front := ticks[..m];
    assert forall j | i < j < m :: front[j] == ticks[j];
    UnleasedAtZero(b, front, i);
    StepAt(b, ticks, m);
    CacheExact(b, ticks[..m + 1]);
    if Before(b, ticks, m + 1).napt.on && !Before(b, ticks, m).napt.on {
      TurnedOnByReconciler(b, ticks, m);
    }
  }
}
