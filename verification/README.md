# SpoolGate: a model of the router's control machines

SpoolGate is firmware for an unattended Wi-Fi NAT router on an ESP32. Nothing in it is
computationally deep; what is hard is that a handful of small state machines, driven by radio
events, a periodic `loop()`, a ping task and a supervisor task, must never leave the board stranded.
This project models those machines and proves what holds over every run of them.

Every stateful part is a class whose methods change its fields in place, as the source does, and each
method is proved to take the abstract state to what a specification function says. The theorems are
about those functions and about whole runs: sequences of timed steps in any interleaving.

| file | content |
|---|---|
| Clock.dfy | true time as a `nat`, `millis()` as that modulo 2^32, and when 32-bit tests can be trusted |
| Watchdog.dfy | the supervisor's two stall clocks, across rollovers and sampling races |
| Napt.dfy, Health.dfy | the cached NAPT switch; the probes and their ping sessions |
| Router.dfy | events, loop segments and ping callbacks as steps of one state; class `Router` |
| RouterRuns.dfy | runs, iterations of loop() in them, and the phase invariant |
| SupervisorRuns.dfy | the supervisor's polls among the router's steps: which reboots a run can see, and which it must |
| Lifecycle.dfy, Retry.dfy | the three-phase connection life cycle over true time, and the proof that the flags and timestamps refine it |
| NaptRuns.dfy | DHCP protection and convergence of NAPT |
| HealthRuns.dfy | verdicts, streaks, recoveries and their spacing |
| ProbeRuns.dfy | when a round begins, whom it probes, what it reports and when a recovery follows, exactly |
| RoundEdges.dfy | recoveries when a round begins in a millisecond that reads zero |
| LogRing.dfy | the escape-stripping copy, the ring, and the reader that drops its lock |
| Config.dfy, Text.dfy | settings, their store, the save form, interrupted saves |
| Portal.dfy | the login session, HTML escaping, the throughput test |

## How the model is set up

- A step takes one sample of the clock. A segment of `loop()`, an event handler, a ping callback and a
  poll of the supervisor are each one step; any order and any number of steps of other kinds may come
  in between.
- The drivers are an arbitrary environment: station counts, channel, whether NAPT, a session or a task
  is accepted, and every event, are chosen freely at each step.
- Counters `begins`, `tearDowns`, `samples`, `deauths`, `calls`, `created` and `deleted` are the driver's side of
  the calls the firmware makes; the theorems observe those rather than the guards of the code.
- Timing theorems hold of runs of any length, across any number of rollovers. What they need stands in
  their hypotheses, and concerns only the stretch of the run they speak of: that every segment of
  `loop()` comes round at most `gap` apart there, and, where a test of the code is not rollover-safe,
  that no rollover falls inside the one wait it measures. What happens otherwise is stated beside them.

## Results where a stronger claim fails

- The retry and session deadlines are compared as absolute 32-bit times. `DeadlineTestExact` and
  `ExpiryTestExact` give the exact condition: such a test is right at every instant of a stretch of
  time if and only if the clock does not roll over in it. A retry that no check catches between its
  due time and a rollover leaves the board offline (`RetryBeforeRolloverExact`) until the supervisor
  reboots it (`StrandedUntilReboot`); one scheduled across a rollover is made at once
  (`RetryAcrossRolloverEarly`).
- Without a lease, NAPT goes off for eight seconds every 2^32 ms after an association, because the
  grace timer wraps (`GracePeriodic`, `ReconciledExact`).
- The driver's answer to turning NAPT off is ignored. If it refuses, NAPT is on while the firmware holds
  it to be off, until it next wants it on (`CacheExact`, `StuckUncorrected`); what is proved of NAPT's
  protection of DHCP holds but for that.
- Several stored timestamps use zero for "no time". A probe round that begins in a millisecond reading
  zero does not count as a round, so the next one may follow at once (`RoundGateExact`). Two recoveries
  are then no longer 120000 ms apart (`HurriedAtRollover`, `HurriedFromBoot`), but still 60000 ms and two
  round lengths (`AtomicSpacingAnyway`), and no more (`RoundAtZeroHurries`). A reading of the driver in such
  a millisecond does not hold back the next (`SampleGateExact`). A disconnect in it does not shorten its
  attempt (`QuietTestExact`). A client that associates in it is not forwarded until a lease or another
  association (`GraceExact`, `JoinedAtZeroStaysOff`).
- An expired session is admitted again after a rollover, and a live one refused before it
  (`AcrossRollover`).
- The supervisor reads the clock before the shared words. An update in between makes it reboot a
  healthy board (`StaleSampleReboots`); `LoopRebootExact` says that this is the only way. The value 1
  stored for a zero clock has the same edge (`NudgeReboots`): a poll that samples the very millisecond
  in which the outage began is taken in by it, and, of polls that read both words at one moment, no
  other (`UplinkRebootExact`). Read one after the other, an outage that begins in between has the same
  effect (`SplitReadExact`).
- The log reader can skip a line that stays in the ring throughout (`PickedMisses`); it misses exactly
  as many lines as are evicted between its locked sections (`PickedInOrder`).
- A save cut short by a power loss can leave enterprise mode without a username; `TornSaveExact` says
  exactly which cuts of which saves do, and `AlwaysUsable` that nothing else makes settings unusable. A
  reset or first boot cut short does no harm (`CutSeedRestores`).
- A disconnect event while a retry is pending postpones it and doubles the backoff. So upper bounds
  count from the last such event (`PendingBounded`, `AttemptBounded`), disconnects that keep coming keep
  the board offline (`RetryStarvedExact`, `PesteredStaysOffline`) until the supervisor reboots it
  (`PesteredUntilReboot`), and a recovery, whose own tear-down raises such an event, costs two backoffs
  (`RecoveryBacksOffTwice`).
- The comment at src/watchdog.cpp:14 speaks of a 60 s backoff cap; the code's cap is 15 s
  (src/main.cpp:51), and the model follows the code.

## Model

| member | source | states |
|---|---|---|
| Clock.Elapsed | src/watchdog.cpp:90-94 | the difference of two clock readings is true elapsed time modulo 2^32, whatever rollovers lie between |
| Clock.DeadlineTestExact | src/main.cpp:495 | the retry test is right at every instant up to `end` if and only if the clock does not roll over before it |
| Clock.PastRollover | src/main.cpp:495 | a deadline past the next rollover reads as over until that rollover |
| Watchdog.Supervisor.Begin | src/watchdog.cpp:107-132 | both stall clocks run from begin; unarmed if the task cannot start |
| Watchdog.Supervisor.MarkUplinkDown | src/watchdog.cpp:68-74 | starts the down clock, nudged off zero, only if it is not running |
| Watchdog.Supervisor.Update | src/watchdog.cpp:138-146 | marks loop() alive; an up link stops the down clock, a down link starts it |
| Watchdog.Supervisor.Poll | src/watchdog.cpp:83-103 | which reboot, if any, one turn of the supervisor decides on |
| Watchdog.UnarmedNever | src/watchdog.cpp:121-132 | a supervisor whose task could not be started never decides anything |
| Watchdog.DownClock | src/watchdog.cpp:68-74 | the down clock is zero exactly while the last update saw the uplink up, and otherwise holds the start of the present outage, which later updates do not move |
| Watchdog.LoopRebootExact | src/watchdog.cpp:92-96 | a loop reboot is decided if and only if the silence has lasted 300000 ms or an update slipped between sample and read |
| Watchdog.LoopRebootSound | src/watchdog.cpp:92-96 | no loop reboot without 300000 ms of true silence, across any number of rollovers |
| Watchdog.LoopStallDetected | src/watchdog.cpp:83-96 | a silent loop is rebooted within 300000 ms plus one poll gap, for gaps below 2^32 - 300000 |
| Watchdog.UplinkRebootExact | src/watchdog.cpp:92-101 | a poll no earlier than the last update decides an uplink reboot if and only if loop() is alive and either the outage has lasted the threshold or outage and sample share one zero millisecond |
| Watchdog.UplinkRebootSound | src/watchdog.cpp:98-101 | an uplink reboot means every update of the last 300000 ms saw the uplink down, save for that one millisecond |
| Watchdog.SplitReadExact | src/watchdog.cpp:92-101 | with the words read one after the other, an uplink reboot is decided besides if and only if the outage began after the sample |
| Watchdog.UplinkStallDetected | src/watchdog.cpp:83-101 | a lasting outage is rebooted within 300001 ms plus one poll gap of its beginning |
| Watchdog.StaleSampleReboots | src/watchdog.cpp:92-94 | the sampling race reboots a loop that ran one millisecond ago |
| Watchdog.NudgeReboots | src/watchdog.cpp:72-73 | the nudge reboots an uplink seen up one millisecond ago and down in the present, zero, millisecond |
| Napt.NaptService.Enable | src/net/napt.cpp:11-18 | asks the driver only when off, and caches its answer |
| Napt.NaptService.Disable | src/net/napt.cpp:20-26 | calls the driver only when on, and holds NAPT to be off whatever it answers |
| Health.Probe.Start | src/net/health.cpp:57-99 | a running probe is left alone; a refused session is deleted and leaves no handle |
| Health.Probe.Harvest | src/net/health.cpp:101-125 | only a finished session is harvested; its verdict moves the streak and everOk, and its handle, which must be live, is deleted once |
| Health.HealthService.Begin | src/net/health.cpp:129-133 | both probes idle, no round yet |
| Health.HealthService.Update | src/net/health.cpp:135-161 | harvest both, drop the upstream streak while down, start a round when due and none is in flight; the session books stay balanced |
| Health.HealthService.ResetStreaks | src/net/health.cpp:182-185 | both streaks cleared, nothing else |
| Health.HealthService.OnPingSuccess | src/net/health.cpp:49-51 | one more reply for that direction |
| Health.HealthService.OnPingEnd | src/net/health.cpp:53-55 | that direction's session is over |
| Health.UpdateKeepsBalance | src/net/health.cpp:57-125 | no update leaks a session or deletes one twice |
| Router.Router.Setup | src/main.cpp:313-341 | the state in which loop() first runs: the first attempt under way |
| Router.Router.StartAttempt | src/main.cpp:183-189 | the bookkeeping of one attempt and one call of uplink::begin() |
| Router.Router.ScheduleReconnect | src/main.cpp:229-234 | a retry one backoff from now; the backoff doubled, at most 15000 ms |
| Router.Router.OnWiFiEvent | src/main.cpp:236-309 | every event case, against the whole state |
| Router.Router.PollRadioStep | src/main.cpp:199-206 | samples the driver at most every 500 ms |
| Router.Router.ReconcileNaptStep | src/main.cpp:208-227 | NAPT follows uplink, stations and lease, with a driver call only on a difference |
| Router.Router.ProbeRoundStep | src/main.cpp:360-361 | probes the gateway, and the client only while it is associated and leased |
| Router.Router.RecoverUplinkStep | src/main.cpp:367-374 | gives up an unreachable link and schedules a retry |
| Router.Router.RecoverClientStep | src/main.cpp:380-384 | deauthenticates an unreachable client |
| Router.Router.CheckDeadlineStep | src/main.cpp:482-493 | abandons an attempt past its deadline, or quiet after a disconnect |
| Router.Router.CheckReconnectStep | src/main.cpp:495-499 | starts a due retry |
| Router.Router.Loop | src/main.cpp:343-500 | one iteration is its segments, in source order |
| RouterRuns.AlwaysOnePhase | src/main.cpp:53-71 | in every run, on any clock, exactly one of online, attempting, waiting to retry |
| RouterRuns.BeginsOnlyWhenIdle | src/main.cpp:181-189 | uplink::begin() is never called over a live attempt or link |
| RouterRuns.TearsDownOnlyWhenUp | src/main.cpp:367-374 | recovery gives up only a link that is up, and leaves a retry pending |
| RouterRuns.LoopExtends | src/main.cpp:343-500 | one iteration of loop() extends a run by its segments, with the state the method Loop ends in |
| RouterRuns.IterationsPace | src/main.cpp:343-500 | iterations at most `gap` apart bring every segment round that often |
| SupervisorRuns.SupervisorSees | src/main.cpp:344-346 | the shared words of a router run are those of a run of the supervisor model |
| SupervisorRuns.LoopRebootEarned | src/watchdog.cpp:92-96 | in a router run, an unraced loop reboot means no iteration began in the last 300000 ms |
| SupervisorRuns.UplinkRebootEarned | src/watchdog.cpp:98-101 | in a router run, an unraced uplink reboot means every iteration of the last 300000 ms found no address, save for the nudge |
| SupervisorRuns.OutageRebooted | src/watchdog.h:12-19 | a router that stays without an address is rebooted, within 300001 ms and one poll gap of any update of the outage |
| SupervisorRuns.StrandedUntilReboot | src/main.cpp:495 | a retry stranded by a rollover ends in that reboot |
| SupervisorRuns.PesteredUntilReboot | src/main.cpp:276-278 | a retry held off by disconnect events ends in that reboot |
| Lifecycle.DelayDoubles | src/main.cpp:18-51 | min(2000 * 2^k, 15000) is what doubling and capping produce |
| Lifecycle.AttemptRenewed | src/main.cpp:482-499 | an attempt is renewed within deadline, backoff and two loop gaps, with exactly one more retry counted |
| Retry.TraceRepresents | src/main.cpp:53-71 | in every run, on any clock, flags and timestamps represent the life cycle traced in true time |
| Retry.Refines | src/main.cpp:53-71 | and that is a run of the three-phase machine wherever no rollover falls between a check of a pending retry and the time it is due, and no attempt outlasts a clock period |
| Retry.BackoffExact | src/main.cpp:229-234 | in every run, on any clock, the backoff in force is min(2000 * 2^k, 15000) after k retries scheduled since the last address |
| Retry.QuietTestExact | src/main.cpp:482-493 | the quiet test measures true time since a disconnect if and only if that disconnect did not fall on a zero reading |
| Retry.GivenUpExact | src/main.cpp:482-493 | on any clock, a deadline check gives a running attempt up if and only if it is 20000 ms old, or a disconnect has been followed by 2000 ms with nothing heard |
| Retry.RetrySpacing | src/main.cpp:229-234 | between two attempts a retry is scheduled, and the second comes at least the backoff then in force later |
| Retry.AttemptBounded | src/main.cpp:482-499 | every attempt is followed by an address or another attempt within 35000 ms and two loop gaps |
| Retry.PendingBounded | src/main.cpp:495-499 | a pending retry that no further event postpones is made within 15000 ms and a loop gap |
| Retry.RetryTestExact | src/main.cpp:495-499 | at any time, a pending retry is made by the first check whose clock reading is no less than that of the due time |
| Retry.RetryBeforeRolloverExact | src/main.cpp:495-499 | a retry due before a rollover is made within a clock period if and only if a check falls between its due time and the rollover |
| Retry.RetryAcrossRolloverEarly | src/main.cpp:495-499 | a retry due after a rollover is made by the first check before it, too early |
| Retry.RetryStarvedExact | src/main.cpp:276-278 | while no address arrives, an attempt is made if and only if some check comes when the retry scheduled last is due |
| Retry.PesteredStaysOffline | src/main.cpp:276-278 | events that postpone the retry less than 2000 ms before each check hold it off for as long as they come |
| Retry.RecoveryBacksOffTwice | src/main.cpp:367-374 | the disconnect event of a recovery's own tear-down leaves the retry due 4000 ms later and the backoff at 8000 ms |
| Retry.NineAttemptsBeforeReboot | src/watchdog.cpp:13-17 | a board whose uplink never comes up has made at least nine attempts when the supervisor gives up on it |
| NaptRuns.ClientsTracked | src/main.cpp:281-304 | the lease flag and association time say what the events said |
| NaptRuns.AddressExact | src/main.cpp:287-304 | the client address is that of the latest lease, kept through re-associations, forgotten when the last client leaves |
| NaptRuns.ProbedOnlyWhenLeased | src/main.cpp:357-361 | a client is probed only with a lease seen, at the latest leased address |
| NaptRuns.CacheExact | src/net/napt.cpp:9-30 | while the cached flag is set NAPT is on; it is on with the flag clear exactly while a refused call to turn it off has not been followed by an accepted one to turn it on |
| NaptRuns.CallsExact | src/main.cpp:219-226 | the driver is called once when the reconciler wants what the flag does not say, and on a disconnect with the flag set; never otherwise |
| NaptRuns.StuckUncorrected | src/main.cpp:219-226 | while NAPT is stuck on so, it stays on, and only a reconcile that wants it on reaches the driver |
| NaptRuns.DhcpProtected | src/main.cpp:208-227 | after every reconcile, NAPT on and not stuck means uplink up, a station at the driver's latest reading, and a lease since the latest association or 8000 ms of true time |
| NaptRuns.TurnedOnByReconciler | src/main.cpp:250-255 | no event turns NAPT on |
| NaptRuns.OnWithoutUplink | src/main.cpp:367-374 | NAPT on without an uplink only while stuck, or between a reachability recovery and what settles it |
| NaptRuns.NaptConverges | src/main.cpp:191-227 | in quiet conditions NAPT comes on within the poll period, the grace period and two loop gaps, and stays on with no driver call |
| NaptRuns.NaptConvergesExact | src/main.cpp:191-227 | in quiet conditions NAPT comes on if and only if there is a lease or the association did not fall on a zero reading |
| NaptRuns.ReconciledExact | src/main.cpp:208-227 | at any time after an association without a lease, NAPT is held to be on after a reconcile exactly if uplink, stations and driver allow it, the association was not at a zero reading, and no 8000 ms grace period, reopened every 2^32 ms, is running |
| NaptRuns.JoinedAtZeroStaysOff | src/main.cpp:208-227 | a client associated at a zero reading is not forwarded until a lease or another association, unless NAPT is stuck on |
| NaptRuns.GracePeriodic | src/main.cpp:214 | when the grace test passes, at every time after the association |
| NaptRuns.SampleClock | src/main.cpp:199-206 | the poll timestamp is the clock at the latest reading of the driver, and zero before the first |
| NaptRuns.CountsRead | src/main.cpp:203-205 | the cached station count and channel are those of the driver's latest reading, zero included, and zero before the first |
| NaptRuns.ReadsExact | src/main.cpp:199-202 | which polls read the driver |
| NaptRuns.SampleGateExact | src/main.cpp:199-206 | the poll gate measures 500 ms of true time if and only if the latest reading did not fall on a zero reading of the clock |
| NaptRuns.SampledSparsely | src/main.cpp:199-206 | two readings of the driver are at least 500 ms of true time apart, across any rollover, unless the first or one in between falls on a zero millisecond |
| NaptRuns.GraceStaysOverExact | src/main.cpp:214 | once over, the grace period stays over for ever if and only if a lease was seen |
| NaptRuns.GraceExact | src/main.cpp:214 | the grace test is right throughout one clock period if and only if a lease was seen or the association was not at a zero reading; else it never passes |
| HealthRuns.RunTallies | src/net/health.cpp:101-145 | streak is trailing failed rounds capped at 255, result is the latest verdict unless the uplink was seen down since, everOk is some round passed, and three failures are spent per recovery |
| HealthRuns.RecoveryEarned | src/main.cpp:363-384 | a recovery needs an earlier passed round and three failed rounds at the end of the record |
| HealthRuns.SessionsStayBalanced | src/net/health.cpp:86-125 | sessions created minus deleted is the number of running probes, in every run |
| HealthRuns.VerdictExact | src/net/health.cpp:49-107 | a verdict is Ok exactly when a reply arrived in the same round |
| ProbeRuns.RoundExact | src/net/health.cpp:135-153 | a round begins if and only if the uplink is up, no session is in flight, and a minute has passed by the clock since the latest round, or that began at a zero reading |
| ProbeRuns.GatewayProbedExact | src/net/health.cpp:155-157 | the gateway is probed, in a new session, whenever there is one and lwIP grants it |
| ProbeRuns.ClientProbedExact | src/main.cpp:357-361 | the client is probed, in a new session, exactly if the latest reading found a station, a lease at a real address was issued since the latest association, and lwIP grants it |
| ProbeRuns.UnbegunExact | src/net/health.cpp:101-125 | otherwise a session goes on until its end is called back, and is then gone |
| ProbeRuns.RecordExact | src/net/health.cpp:101-145 | a probe step reports a verdict exactly if the session has ended, passed exactly if a reply came, and upstream that the uplink is down |
| ProbeRuns.ProbeableExact | src/main.cpp:357-359 | a client counts as probeable exactly if the latest probe step found a station read and a lease seen |
| ProbeRuns.RecoversExact | src/main.cpp:367-384 | a recovery block acts if and only if its direction is up or probeable, has passed some round, and has missed its last three |
| HealthRuns.RoundGateExact | src/net/health.cpp:147-149 | the round gate measures 60000 ms of true time if and only if the last round did not begin at a zero reading |
| HealthRuns.RecoverySpacing | src/main.cpp:367-384 | two recoveries of one direction are at least 60000 ms apart in any interleaving, unless a round begins between them at a zero reading |
| HealthRuns.AtomicRecoverySpacing | src/main.cpp:367-384 | with iterations atomic they are at least 120000 ms apart, unless a round begins at a zero reading between them or in the iteration of the first |
| RoundEdges.AtomicSpacingAnyway | src/net/health.cpp:147-153 | zero readings or not, with iterations atomic and rounds of at least `length` they are at least 60000 ms and two lengths apart |
| RoundEdges.RoundAtZeroHurries | src/net/health.cpp:147-153 | that bound is met: any run without clients that harvests a third missed upstream round at a zero reading with the next one due can go on to a recovery that soon |
| RoundEdges.HurriedAtRollover | src/net/health.cpp:147-153 | from any state at rest, missed rounds of two seconds and one harvest held up for 20 s put two recoveries 103 s apart across a rollover |
| RoundEdges.HurriedFromBoot | src/net/health.cpp:147-153 | such a run from boot |
| HealthRuns.LoopIsAtomic | src/main.cpp:343-384 | iterations of loop() are atomic in the sense of that theorem |
| LogText.StripPlain | src/logbuf.cpp:23-43 | no escape and no line end survives |
| LogText.StripIdempotent | src/logbuf.cpp:23-43 | storing a stored line changes nothing in it |
| LogText.StripRemovesEscape | src/logbuf.cpp:30-38 | a complete escape vanishes from the middle of a line, and nothing else does |
| LogText.StripExact | src/logbuf.cpp:28-43 | what stripping does to each character: kept, dropped, or everything behind an unfinished escape dropped |
| LogText.LineExact | src/logbuf.cpp:26-44 | a line is the first 127 characters of the stripped text |
| LogRing.Ring.Clean | src/logbuf.cpp:25-44 | the copy loop yields the first 127 characters of the stripped text, terminated |
| LogRing.Ring.Store | src/logbuf.cpp:46-57 | a non-empty line is appended to the history and an empty one not; the ring holds the last 96 lines, stale bytes of older lines never showing |
| LogRing.HistoryExact | src/logbuf.cpp:46-57 | after any texts the history is the old one followed by their non-empty lines, in order |
| LogRing.Ring.Render | src/logbuf.cpp:93-112 | the output is the lines that the locked sections copied, from a history that grows in between |
| LogRing.Ring.Count | src/logbuf.cpp:114-119 | the number of lines held, min(N, 96) |
| LogRing.PickedInOrder | src/logbuf.cpp:93-112 | at most 96 lines, in order, none twice, missing exactly what was evicted in between |
| LogRing.RenderingReadsBack | src/logbuf.cpp:93-112 | read back line by line, the output is exactly the lines that the sections copied |
| LogRing.RenderedQuietly | src/logbuf.cpp:93-112 | left alone, the output reads back as exactly the last min(N, 96) lines |
| LogRing.PickedMisses | src/logbuf.cpp:104 | a line that never leaves the ring can be missed |
| Config.ConfigStore.Begin | src/config.cpp:43-79 | stored keys overlay the defaults; a blank store is seeded with them |
| Config.ConfigStore.Save | src/config.cpp:81-97 | the thirteen writes, in order; every setting then stands under its own key |
| Config.ConfigStore.FactoryReset | src/config.cpp:99-105 | defaults in force and in the store |
| Config.ConfigStore.HandleSave | src/web/portal.cpp:438-530 | a form is refused with the first reason that applies and changes nothing, or everything it says is in force, in the store, and after a reboot |
| Config.ComplaintExact | src/web/portal.cpp:455-472 | a form is refused if and only if one of seven reasons applies, each stated on the form |
| Config.OverlayExact | src/web/portal.cpp:480-516 | an accepted form takes effect, field by field |
| Config.BeginExact | src/config.cpp:64-78 | key by key, a stored value of the right type is in force, and otherwise the default |
| Config.SaveRestores | src/config.cpp:64-97 | begin() restores what save() wrote |
| Config.OverlayKeepsOmitted | src/web/portal.cpp:482-516 | a partial form blanks no credential and changes no security mode |
| Config.OverlayKeepsUsable | src/web/portal.cpp:455-516 | an accepted form leaves usable settings usable |
| Config.CutSaveMixes | src/config.cpp:81-97 | a save cut short leaves exactly the fields already written in their new value and the others in their old one |
| Config.CutSeedRestores | src/config.cpp:56-61 | a first boot or factory reset cut short comes back with the defaults |
| Config.AlwaysComplete | src/web/portal.cpp:455-516 | over all forms, reboots, resets and power losses in their midst no network name, login or SoftAP password is lost, and a reboot changes nothing |
| Config.AlwaysUsable | src/web/portal.cpp:455-516 | over all of these the settings stay usable throughout if and only if no save is cut short between enterprise mode and the username it introduces with it |
| Config.TornSaveExact | src/config.cpp:81-97 | which interrupted saves leave unusable settings, exactly |
| Session.Portal.IsAuthed | src/web/portal.cpp:141-164 | admits the unexpired token and slides its expiry; refusing changes nothing |
| Session.Portal.HandleLoginPost | src/web/portal.cpp:228-241 | a granted login replaces token and expiry |
| Session.Portal.HandleLogout | src/web/portal.cpp:243-250 | no token is left |
| Session.CookieRoundTrip | src/web/portal.cpp:148-158 | the cookie set at login is read back as the token issued |
| Session.TokenExact | src/web/portal.cpp:148-158 | wherever the session cookie stands in the header, its value up to a semicolon, less white space, is the token |
| Session.NoToken | src/web/portal.cpp:149-152 | there is no token exactly if its name does not occur |
| ArduinoText.TrimExact | src/web/portal.cpp:448-453 | trimming takes white space off both ends and nothing else |
| Session.ChainHolds | src/web/portal.cpp:141-164 | on any clock, the token in force goes back to the login that issued it, with no logout or login since, through visits each not expired by the clock |
| Session.LinksInTime | src/web/portal.cpp:141-164 | and at most 900000 ms apart, unless a rollover falls between an expiry and the next visit |
| Session.AdmittedExact | src/web/portal.cpp:141-164 | on any clock, a visit is admitted if and only if it presents that token and the clock reads no more than the expiry set at the latest link |
| Session.AdmittedInTime | src/web/portal.cpp:141-164 | which means within 900000 ms, if no rollover falls between that expiry and the visit |
| Session.AcrossRollover | src/web/portal.cpp:142 | before such a rollover a live session is refused, after it an expired one admitted until the clock reads its expiry again |
| Session.ExpiryTestExact | src/web/portal.cpp:142 | the expiry test is right up to `end` if and only if the clock does not roll over |
| Html.HtmlEscape | src/web/portal.cpp:94-109 | the loop computes the escaping, character by character |
| Html.UnescapeEscape | src/web/portal.cpp:94-109 | escaping has a left inverse |
| Html.EscapeConcat | src/web/portal.cpp:94-109 | escaping distributes over concatenation |
| Html.EscapeInert | src/web/portal.cpp:94-109 | no raw bracket or quote, and every ampersand starts an entity |
| SpeedTest.Run | src/web/portal.cpp:671-713 | the target is 8 MiB by default and at most 64; whole blocks up to it, fewer only if 20 s or the client ended the run; the rate is exact and survives its cast |
| SpeedTest.BlocksStop | src/web/portal.cpp:692-702 | the transfer ends at the first block that finds the time up or the client gone |

## Left out

- NaptRuns.NaptConverges: the bound has one millisecond more than poll period, grace period and two gaps, because in an arbitrary interleaving a reconcile may precede the poll of the same millisecond.
- Watchdog.Supervisor.Poll: reads both words at one moment, in the class and in runs; `SplitReadExact` treats the two reads separately.
- HealthRuns.VerdictExact: assumes fewer than 2^32 replies in one round; a round sends three requests.
- Several readings of `millis()` within one segment are one reading.
- Events that arrive during `setup()`, before the first attempt, and a failed SoftAP bring-up.
- Memory ordering between the ping task and `loop()`, and interleavings inside one segment.
- The Wi-Fi driver, lwIP, EAP, flash storage, the task scheduler and the web server themselves: their answers are inputs.
- `uplink::begin()` and the SoftAP bring-up beyond the fact that they are called: sequences of driver calls.
- Text conversions of the framework (`IPAddress`, `toInt`) are parameters; only that an address survives its own text form is assumed.
- The truncation of formatted log text by `vsnprintf` before it reaches the ring, and the reboot timer after a save.
- `guard()` beyond the login: the check that a request comes from the private network.
- The off-subnet check, page rendering, `/stat.json`, the log text of each step, name tables and the debug build.
- The status LED: hues, flashing and the write cache.
- Uniqueness and randomness of session tokens.
