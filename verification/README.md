# A verified model of the IEEE 2030.5 client's control, reservation and fleet logic

This project models the stateful core of the Go client (and the Python adapter of its GridLAB-D
sidecar) and proves what a maintainer relies on. `dafny verify dfyconfig.toml` checks all of it.

| file | models |
|---|---|
| `Scheduling.dfy` | the randomizing, sorted event queue |
| `Lifecycle.dfy` | the DERControl event state machine, phase by phase |
| `ControlSession.dfy` | the polling cache, the snapshot diff and one device's session loop |
| `EventInvariants.dfy`, `EventTrails.dfy`, `Admission.dfy`, `EventGuarantees.dfy`, `DroppedEvents.dfy`, `ReachableRuns.dfy` | what holds over every run of a session, and runs that surprise |
| `Answers.dfy` | choosing and reading the answer to a flow reservation |
| `Encoding.dfy` | the ActivePower encoders and the posted request |
| `PowerSplit.dfy`, `Dispatch.dfy`, `Replay.dfy`, `FleetTick.dfy` | targets, shares, battery output and the energy count |
| `Metering.dfy` | the energy a grant really moved, against the count of it |
| `Reservation.dfy` | posting, following, withdrawing and retrying reservations |
| `Wire.dfy` | the sidecar connection with detach-and-drain |
| `Supervision.dfy` | sidecar processes and the restart budget |
| `FleetDevices.dfy` | setpoints across sidecar restarts |
| `Batch.dfy` | all-or-nothing property batches |
| `Curve.dfy` | piecewise linear curves |

An object whose methods update fields is a class whose methods are proved to compute a named function of
the old state; the results are then proved about those functions, over whole runs. The connection, where
goroutines interleave, is a transition system.

## How the source is read

- Whatever Go leaves open is a choice of the environment: map iteration order, the random draws, the order
  in which `sort.Slice` leaves equal keys, which ready `select` case wins, and the outcome of every I/O call.
- Floating point is read as real arithmetic. A square root appears as a parameter that squares back.
- Event times are whole seconds, which changes no comparison with a clock reading. Reservation times are
  reals. The zero `time.Time` is an explicit constant in the event engine and `None` elsewhere.
- A session is the sequential managed one: list reads, failed reads and program switches in any order. The
  state machine, and with it the rejected set, outlives a program switch; queue, cache and snapshot do not.
- The sidecar's native write of a value it has itself just reported is taken to succeed, as the adapter's
  own comment expects.

## Where the code and its comments part

- `statemachine.go:43-46` says a second event due at the same tick stays queued until the first ends; the code
  drops it (426-433). It drops more than that: any due event is gone that is not the first due one of an idle
  machine, or the awaited one coming first (434-471). A lone event that comes due while another one is in force,
  or is waited for, is never received, started or answered. `DroppedExactly` gives the condition, for every
  event and input, `LostStaysLost` says that it is for good while the event stays listed, and
  `OverlappingEventLost` and `EarlierEventLost` reach such states with one event due at a time.
- When the dropped event is the awaited one, the machine is stuck: `StrandedExactly` says when,
  `StrandedBlocksEverything` what follows, and `WaitingEventLost` gives reachable runs for every suitable pair.
- An active event whose end is the zero time never completes by itself (`statemachine.go:420`):
  `StartedEndsExactly` says when a started event ends, `EndlessEventGoesOn` follows it over whole runs, and
  `EndlessEventStarts` reaches it from the start of a session.
- The duration jitter is called symmetric; for an odd range it reaches one second further up than down.
- `EnforceVALimit` says P is reduced; a charging power beyond the rating comes out as full discharge
  (`ActivePowerSurvivesExactly`, `ChargingFlipsExactly`). The energy cap does not depend on it.
- `reservation.go:61-63` says the energy moved under an earlier answer counts. What was moved since the last
  tick is forgotten when the answer is dropped, or cut to end before the next tick (78-93). `CountIsExact`
  says exactly when the count is the energy moved, and `RevocationsHideEnergy` shows that otherwise there is
  no bound: the requested energy can be moved any number of times over. Energy held past the end of a grant,
  until the next tick, is not counted either; the windowed meter leaves it out too.
- Under one grant the energy cap needs nothing of the tick times. Under revision the cap on the count needs
  each tick to come within the step the previous plan was sized for, which is the longer of `dispatch.tick_s`
  and the gap before that plan, and exactly that (`RevisionNeedsTheStep`).
- A request to discharge less than half a watt-hour rounds to zero and reads as charging
  (`DirectionSurvivesExactly`); no grant is then usable, so nothing is dispatched.
- Which of several newest live answers counts depends on the order of the list; `OrderMattersExactly` says
  when that changes the verdict.
- `activePowerOf` stops at multiplier 127; `FitsExactlyBelowCeiling` says for which ratings that is enough.
- A failed apply of another setpoint, when its write did reach the model, leaves the device and the model
  apart (`FailedApplyDiverges`); by the invariant of `FleetDevices` this is the only exception to setpoint
  survival.
- `EvaluateCurve` asks for sorted points and nothing sorts them. It stays safe and bounded;
  `InterpolatesExactly` says which lists it still interpolates.

## Model

| member | source | states |
|---|---|---|
| Scheduling.ComputeWindow | internal/inverter/scheduler.go:252-263 | the end of a window never precedes its start, however the duration is jittered |
| Scheduling.StartWindowIsExact | internal/inverter/scheduler.go:265-292 | the reachable start times are exactly [start, start+rs], or [start-\|rs\|, start] for a negative rs |
| Scheduling.DurationWindowIsExact | internal/inverter/scheduler.go:294-318 | the reachable durations are exactly d minus half the range, rounded down, to d plus half the range, rounded up |
| Scheduling.RemoveContents | internal/inverter/scheduler.go:230-242 | removing an mRID deletes that key of the map the queue implements and nothing else |
| Scheduling.RemoveAllTable | internal/inverter/scheduler.go:144-158 | cancelling deletes exactly the named keys and keeps the queue sorted, distinct and well formed |
| Scheduling.AddedQueue | internal/inverter/scheduler.go:101-142 | whatever order the unstable sort leaves, the queue is again valid and is the map updated event by event |
| Scheduling.DueSplits | internal/inverter/scheduler.go:186-212 | popping splits the queue exactly at fireAt <= now and loses nothing |
| Scheduling.Scheduler.RemoveByMRID | internal/inverter/scheduler.go:230-242 | removes the first match in place and reports whether there was one |
| Scheduling.Scheduler.OnEventsAdded | internal/inverter/scheduler.go:118-142 | the queue becomes some sorted arrangement of the old one with each event replaced or appended |
| Scheduling.Scheduler.OnEventsCancelled | internal/inverter/scheduler.go:147-158 | the queue loses the named mRIDs, unknown ones being harmless |
| Scheduling.Scheduler.PopExpired | internal/inverter/scheduler.go:194-212 | returns the due prefix and keeps the rest |
| Lifecycle.StateMachine.TransitionTo | internal/inverter/statemachine.go:490-506 | enters a state, clears the active event on DEFAULT, records old and new state |
| Lifecycle.StateMachine.Reject | internal/inverter/statemachine.go:258-295 | the in-place loop computes the specified rejections, withdrawals and records, item by item |
| Lifecycle.StateMachine.Accept | internal/inverter/statemachine.go:369-387 | phase 1 filters and rejects exactly as specified |
| Lifecycle.StateMachine.CancelListed | internal/inverter/statemachine.go:392-417 | phase 2 removes the cancelled events and ends the active one if it is among them |
| Lifecycle.StateMachine.FinishIfExpired | internal/inverter/statemachine.go:419-424 | phase 3 completes a started event at its end |
| Lifecycle.StateMachine.FireHead | internal/inverter/statemachine.go:426-471 | phase 4 starts the first popped event and drops the others |
| Lifecycle.StateMachine.ObserveHead | internal/inverter/statemachine.go:473-485 | phase 5 receives the next queued event when idle |
| Lifecycle.StateMachine.Tick | internal/inverter/statemachine.go:240-256 | machine, queue and transition list after a tick are the five phases in order |
| ControlSession.DERControlCache.Refresh | internal/inverter/dercontrol_poll.go:206-225 | the cache becomes the accepted controls by mRID, the last of several winning |
| ControlSession.AcceptedControls | internal/inverter/dercontrol_poll.go:138-158 | the controls without those that share a rejected item's mRID |
| ControlSession.SnapshotFacts | internal/inverter/dercontrol_poll.go:138-158 | every cached control is under its own non-empty mRID, and none shares a rejected one |
| Admission.SnapshotExactly | internal/inverter/dercontrol_poll.go:138-158 | the snapshot holds exactly the mRIDs some listed control has and no undecodable item shares, each with its last control |
| ControlSession.DiffSnapshots | cmd/inverterclient/main.go:102-123 | in any visiting order the buckets list exactly the new live keys and exactly the cancelled or missing ones, once each |
| ControlSession.StepEvents | cmd/inverterclient/main.go:128-134 | rejections first, then one tick on the snapshot difference |
| ControlSession.Follower.PollSucceeded | cmd/inverterclient/managed_controls.go:299-304 | a read list is one step of the session |
| ControlSession.Follower.PollFailed | cmd/inverterclient/managed_controls.go:289-298 | an unreadable list still ticks the machine |
| ControlSession.Follower.SwitchProgram | cmd/inverterclient/managed_controls.go:331-339 | the switch tail is one step, after which queue, cache and snapshot are new |
| EventInvariants.StepKeepsInv | internal/inverter/statemachine.go:361-488 | every input keeps queue, active event, rejected set and snapshot consistent; nothing due stays queued, DEFAULT means an empty queue, STARTED means before its end and not queued |
| EventTrails.RunKeepsInv | cmd/inverterclient/managed_controls.go:262-341 | the invariant at every point of every run of polls, failures and switches |
| Admission.RunAdmits | internal/inverter/statemachine.go:361-488 | over any run whatever is queued or active passed the validator and keeps to the windows of its own randomizeStart and randomizeDuration |
| Admission.RejectedExactly | internal/inverter/statemachine.go:268-390 | an input rejects an mRID, with exactly one record, exactly when an undecodable, uncancelled item names it or it is newly listed, live and refused by the validator |
| Admission.RejectionsCarryReasons | internal/inverter/statemachine.go:315-322 | every rejection carries that undecodable item or refused control |
| Admission.ScheduledExactly | internal/inverter/statemachine.go:369-390 | a newly listed, live control is in the queue that is drained, as listed, exactly when the validator passes it and it has an interval |
| Admission.AnyWindowReached | internal/inverter/scheduler.go:252-263 | every pair of times within an event's windows is some draw's |
| EventTrails.RunHonest | internal/inverter/statemachine.go:337-360 | the records of any run form one path in the lifecycle graph, each about the active event, where only a rejection of that event skips an arrow |
| EventTrails.WithdrawnOnlyByRejection | internal/inverter/statemachine.go:265-295 | a received or started event falls back to DEFAULT only right after its own EVENT_REJECTED |
| EventTrails.StepTracks | internal/inverter/statemachine.go:361-488 | one input extends an event's history only the way the lifecycle allows |
| EventTrails.OncePerListing | internal/inverter/statemachine.go:361-515 | from unlisted to unlisted again an event is received, started and ended at most once each, in that order |
| EventGuarantees.RejectedOnce | internal/inverter/statemachine.go:258-295 | over any run an mRID is rejected exactly when it joins the rejected set, so at most once |
| EventGuarantees.RejectedIsFinal | internal/inverter/statemachine.go:369-390 | a rejected mRID is never again queued, active or recorded, listed again or not |
| EventGuarantees.RejectionIsNotCancellation | internal/inverter/statemachine.go:265-267 | the input that rejects an event records nothing else about it, no cancellation in particular |
| EventGuarantees.SwitchCleansUp | cmd/inverterclient/managed_controls.go:331-339 | a switch ends idle with an empty queue and snapshot and exactly one cancellation, of the active event, iff there was one |
| EventGuarantees.EveryRecordHasAStatus | cmd/inverterclient/response_hook.go:186-204 | in a run every record maps to the status of the state it enters: 1, 2, 3, 6 or 253, and 0 only for DEFAULT |
| EventGuarantees.ResponsesExactly | cmd/inverterclient/response_hook.go:105-140 | in a run the response is that status, or 14 for a superseded cancellation, exactly when the event has a replyTo and its responseRequired bit asks for it |
| EventGuarantees.NoResponseTwice | cmd/inverterclient/response_hook.go:105-140 | while an event stays listed no response status is posted twice for it |
| EventGuarantees.StrandedExactly | internal/inverter/statemachine.go:426-485 | an input leaves the machine waiting for an unqueued event exactly when the awaited one is missing or overtaken as the due events are drained |
| EventGuarantees.WaitingEventsCanFire | internal/inverter/statemachine.go:357-360 | with at most one event due per tick an awaited event always stays queued |
| EventGuarantees.StrandedBlocksEverything | internal/inverter/statemachine.go:434-485 | over any run that offers that event, a stranded machine receives and starts nothing |
| EventGuarantees.StartedEndsExactly | internal/inverter/statemachine.go:419-424 | while offered, a started event ends by itself exactly when its end has come and is not the zero time |
| EventGuarantees.EndlessEventGoesOn | internal/inverter/statemachine.go:419-424 | a started event whose end is the zero time stays started over any run that offers it |
| DroppedEvents.DroppedExactly | internal/inverter/statemachine.go:426-485 | an input drops a queued event, with nothing recorded about it, exactly when it is due and neither heads the due events of an idle machine nor is the awaited event coming first |
| DroppedEvents.OfferedStaysQueued | internal/inverter/statemachine.go:361-417 | a queued event that is still offered is in the queue that is drained |
| DroppedEvents.LostStaysLost | cmd/inverterclient/main.go:102-134 | an event neither queued nor active is never queued, active or recorded again over any run that keeps it listed |
| ReachableRuns.WaitingEventLost | internal/inverter/statemachine.go:426-433 | for any two plain controls a reachable run loses the one received first |
| ReachableRuns.OverlappingEventLost | internal/inverter/statemachine.go:444-471 | for any two plain controls that overlap a reachable run loses the later one, due alone |
| ReachableRuns.EarlierEventLost | internal/inverter/statemachine.go:444-471 | an event listed later but firing earlier than the awaited one is lost, due alone |
| ReachableRuns.EndlessEventStarts | internal/inverter/statemachine.go:452-467 | any due plain control whose interval ends at the zero time is started, without an end |
| Answers.FindFirstAnswer | cmd/inverterclient/reservation_logic.go:307-316 | the oldest answer for the request, and none exactly when there is none |
| Answers.FindEffectiveAnswer | cmd/inverterclient/reservation_logic.go:281-301 | of the newest live answers the last in the list, and none exactly when all are cancelled or superseded |
| Answers.VerdictExactly | cmd/inverterclient/reservation_logic.go:318-355 | exactly when the verdict is each of the seven kinds, by the list's newest live answer and oldest answer, and the terms that come with it |
| Answers.UnclippedIsAsOffered | cmd/inverterclient/reservation_logic.go:390-408 | terms without a note are the offer itself |
| Answers.ScaledIsDecimal | cmd/inverterclient/reservation_logic.go:258-271 | a quantity is its value times ten to the multiplier, for either sign |
| Answers.ReadGrantIsIntersection | cmd/inverterclient/reservation_logic.go:357-408 | usable exactly when window, energy and power overlap the request, and then their intersection in the request's direction |
| Answers.JudgeIgnoresOrder | cmd/inverterclient/reservation_logic.go:318-355 | with distinct creation times any permutation of the list is judged the same |
| Answers.OrderMattersExactly | cmd/inverterclient/reservation_logic.go:281-301 | every permutation is judged the same exactly when all newest live answers are judged alike |
| Answers.JudgeIgnoresClockOnceAnswered | cmd/inverterclient/reservation_logic.go:328-340 | once any answer exists the verdict does not depend on now and is neither pending nor expired |
| Answers.RevisionsKeepPunctuality | cmd/inverterclient/reservation_logic.go:324-327 | revisions no older than the first answer never turn on-time into late or back |
| Answers.JudgedTermsAreWithin | cmd/inverterclient/reservation_logic.go:347-354 | whatever is dispatched lies within the requested window, energy and power |
| Encoding.ActivePowerOf | cmd/inverterclient/managed_status.go:60-70 | the loop stops at the first rounding that fits 16 bits, or at multiplier 127 |
| Encoding.FitsExactlyBelowCeiling | cmd/inverterclient/managed_status.go:63-70 | n roundings give a 16-bit value exactly up to 32767, below zero 32768, followed by n fours |
| Encoding.RoundingError | cmd/inverterclient/managed_status.go:63-70 | however often it rounds the result is within 5/9 of its last digit |
| Encoding.ActivePower | cmd/inverterclient/reservation_logic.go:114-131 | the loop computes the exact encoding or refuses |
| Encoding.ExactPowerIsExact | cmd/inverterclient/reservation_logic.go:114-131 | it succeeds exactly when some multiplier carries the whole watts unrounded, and is then exact |
| Encoding.EncodersAgree | cmd/inverterclient/reservation_logic.go:114-131 | whenever it succeeds the rounding encoder gives the same quantity |
| Encoding.RequestRoundTrip | cmd/inverterclient/reservation_logic.go:142-180 | the facts read back are the operator's energy and power in whole units over the requested window; the power is signed like the energy |
| Encoding.DirectionSurvivesExactly | cmd/inverterclient/reservation_logic.go:273-279 | the direction survives unless less than half a watt-hour of discharge is asked for |
| Encoding.RefusedExactly | cmd/inverterclient/reservation_logic.go:142-168 | exactly which settings are refused |
| PowerSplit.SplitTarget | cmd/inverterclient/reservation_logic.go:461-485 | the two loops file each member's share by key |
| PowerSplit.SharesFit | cmd/inverterclient/reservation_logic.go:443-485 | every share has the target's direction and fits its member's rating; down, full or empty members get nothing |
| PowerSplit.SharesByRating | cmd/inverterclient/reservation_logic.go:461-485 | a member gets its share of the clipped target exactly when it is available and rated |
| PowerSplit.ShareIsProportional | cmd/inverterclient/reservation_logic.go:474-480 | the share is to the clipped target as the rating is to the ratings of all available members |
| PowerSplit.SplitConserves | cmd/inverterclient/reservation_logic.go:456-485 | the shares sum exactly to the target clipped to what the available members are rated for |
| Dispatch.TargetIsAffordable | cmd/inverterclient/reservation_logic.go:410-432 | the target is within the granted power and cannot overspend in one step or by the end of the grant |
| Dispatch.TargetIsGreatest | cmd/inverterclient/reservation_logic.go:410-432 | no greater power is granted and affordable for one step and for the rest of the grant |
| Dispatch.Dispatcher.Plan | cmd/inverterclient/reservation.go:73-109 | the energy count, the inside flag and the setpoints of a plan |
| Dispatch.EnergyCap | cmd/inverterclient/reservation.go:78-115 | under one grant, whatever was planned before and at any tick times at all, the counted energy never passes the granted energy |
| Dispatch.EnergyCapUnderRevision | cmd/inverterclient/reservation.go:78-109 | under any revisions the count never passes the requested energy when each tick inside a grant is followed within the step its plan was sized for |
| Metering.CountIsExact | cmd/inverterclient/reservation.go:78-93 | the count is the energy moved, all along a run, exactly when no grant is dropped or moved to end elsewhere between a tick and the next |
| Metering.MovedStaysWithinGrant | cmd/inverterclient/reservation.go:78-115 | under one grant the energy moved within it is the count, and stays within the granted energy |
| Metering.MovedStaysWithinRequest | cmd/inverterclient/reservation.go:61-71 | under revisions that drop or cut nothing between ticks, followed in time, the energy moved stays within the request |
| Metering.RevocationsHideEnergy | cmd/inverterclient/reservation.go:78-93 | with a revocation in every step the requested energy is moved any number of times over, and none of it is counted |
| Dispatch.RevisionNeedsTheStep | cmd/inverterclient/reservation.go:94-95 | from any state, a revision can make the count pass the request at the next tick exactly when its gap exceeds the longer of the minimum and the last step |
| Dispatch.RevisionNeedsTheGap | cmd/inverterclient/reservation.go:80-95 | after any tick that is the longer of the minimum step and the gap before that tick |
| Replay.ActivePowerSurvivesExactly | internal/inverter/simulator.go:27-47 | the limiter keeps active power exactly within the apparent power rating and answers full discharge beyond it |
| Replay.ApparentPowerIsLimited | internal/inverter/simulator.go:27-47 | the output is the command when within the rating and exactly at the rating otherwise; reactive power is only reduced, never reversed |
| Replay.Device.ApplySetpoint | internal/inverter/device/replay.go:189-216 | the achieved output and the state of charge, which stays within 0 and 1 |
| Replay.Device.Integrate | internal/inverter/device/replay.go:218-231 | the state of charge integrates the reported output and is clamped |
| Replay.BatteryObeys | internal/inverter/device/replay.go:189-204 | a battery never moves more than commanded in the commanded direction, nor against it when rated within the inverter |
| Replay.AchievedExactly | internal/inverter/device/replay.go:189-204 | what a battery gives for every command, charge, rating and switch position |
| Replay.DeliversExactly | internal/inverter/device/replay.go:189-204 | a battery gives its command exactly when that is zero or it runs, is rated for it, and is not empty or full for it |
| Replay.ChargeBooksEnergy | internal/inverter/device/replay.go:218-231 | unless clamped the stored energy changes by what was charged, and discharging counts against it |
| Replay.ChargingFlipsExactly | internal/inverter/simulator.go:36-46 | exactly when a battery told to charge discharges |
| FleetTick.ManagedFleet.Batteries | cmd/inverterclient/managed.go:165-183 | the members are the undriven batteries in order, with distinct keys and their own rating, availability and charge |
| FleetTick.ManagedFleet.TickDevice | cmd/inverterclient/managed.go:346-371 | one device's read, override, apply and down flag: it applies its plan or its own controls, and a battery reports the order exactly when it can follow it |
| FleetTick.ManagedFleet.Tick | cmd/inverterclient/managed.go:332-394 | plan, apply, record; exactly the undriven batteries are planned, within the grant; when they are able they give the clipped target, and never more; one without headroom is ordered zero |
| FleetTick.PlannedPartFollows | cmd/inverterclient/managed.go:332-394 | what planned batteries report sums to no more than the target, in its direction |
| FleetTick.PlanIsDelivered | cmd/inverterclient/managed.go:332-394 | planned batteries that follow their orders together give the target clipped to what is available |
| FleetTick.ZeroIsOrdered | cmd/inverterclient/managed.go:165-183 | a down, full or empty battery is in the plan with zero and moves nothing |
| FleetTick.CappedTick | cmd/inverterclient/managed.go:332-394 | every tick of an undriven fleet keeps the grant's energy cap, whenever it comes |
| Reservation.Reserver.Trigger | cmd/inverterclient/reservation.go:186-237 | posts or leaves everything as it was; the replaced request is withdrawn when the server accepts, else kept for a retry; the energy count restarts; safety is kept whatever the count has become |
| Reservation.Reserver.Withdraw | cmd/inverterclient/reservation.go:239-259 | an accepted withdrawal drops the grant, a transient failure keeps it and schedules a retry |
| Reservation.Reserver.WithdrawRequest | cmd/inverterclient/reservation.go:261-294 | a request is PUT at most once successfully, and never when finished, withdrawn or without a Location |
| Reservation.Reserver.RetryLater | cmd/inverterclient/reservation.go:316-330 | a request is kept for a retry at most once, a poll interval from now |
| Reservation.Reserver.RetryWithdrawals | cmd/inverterclient/reservation.go:332-366 | the in-place filter keeps the invariant; every due withdrawal is PUT and no other, and one that fails for now is kept with twice the wait, at most five minutes |
| Reservation.Reserver.Poll | cmd/inverterclient/reservation.go:386-452 | a due, complete read is judged: a usable newest answer leaves exactly its intersection with the request as the grant, any other drops it; other reads change no answer; the end of the window finishes the request |
| Reservation.FlowRequest.Acknowledge | cmd/inverterclient/reservation.go:508-545 | one accepted acknowledgement per response, owed until then |
| Reservation.PlansStayWithinRequest | cmd/inverterclient/reservation.go:438-446 | of any safe reserver, every plan lies in the window and direction of the live, granted request and sums to at most its power |
| Reservation.TickUnderReservation | cmd/inverterclient/reservation.go:78-115 | any fleet tick, late or with driven batteries, keeps the reserver safe; an undriven one within the last plan's step keeps the count within the request |
| Wire.StepKeepsInv | internal/sim/gridlabd/client.go:191-308 | every atomic step keeps requests, replies, lock and deliveries in step |
| Wire.RunInSync | internal/sim/gridlabd/client.go:207-236 | lock free and not broken means one line read per request written; a caller only gets the reply to its own id |
| Wire.DeliveredExactly | internal/sim/gridlabd/client.go:191-308 | over any run each settled exchange with a trusted reply to its own id is delivered to its caller, in order, unless that caller gave up |
| Wire.SettledIsDelivered | internal/sim/gridlabd/client.go:185-205 | with an orderly sidecar whoever has not given up is answered when the exchange settles, and whoever has is not |
| Wire.BrokenIsFinal | internal/sim/gridlabd/client.go:20-25 | after breaking nothing is written, read or delivered |
| Wire.BreaksExactly | internal/sim/gridlabd/client.go:135-168 | over any run the connection is broken exactly when some step was a fault, and there is never a second one |
| Wire.CancellationNeverBreaks | internal/sim/gridlabd/client.go:185-190 | with an orderly sidecar no sequence of cancellations breaks the connection |
| Wire.ValidateReplyMatchesRequest | internal/sim/gridlabd/client.go:117-133 | accepted exactly when the reply's items are the request's, in order |
| Supervision.PruneRestarts | internal/sim/gridlabd/supervisor.go:626-635 | the in-place filter keeps exactly the times after the cutoff |
| Supervision.SlidingWindow | internal/sim/gridlabd/supervisor.go:421-429 | no half-open stretch as long as the window holds more than the allowed attempts |
| Supervision.FullExactlyWhenSpent | internal/sim/gridlabd/supervisor.go:421-427 | the pruned list is full exactly when the allowed number of latest attempts, of all ever made, lie within the last window |
| Supervision.BackoffDelay | internal/sim/gridlabd/supervisor.go:637-647 | min(max, min*2^attempt), exactly unless a first attempt meets a minimum above the maximum |
| Supervision.AwaitExactly | internal/sim/gridlabd/supervisor.go:516-548 | exactly when the wait for the socket ends in a connection, a wrong peer or a seen exit |
| Supervision.Supervisor.WaitForSocket | internal/sim/gridlabd/supervisor.go:507-548 | polls until dialled, out of time or exited, and takes the single exit delivery only in the last case |
| Supervision.Supervisor.StartOnce | internal/sim/gridlabd/supervisor.go:453-505 | launched only with no other sidecar alive; on any failure nothing is left and the exit was received once, by whoever saw it |
| Supervision.Supervisor.Shutdown | internal/sim/gridlabd/supervisor.go:550-576 | on every path the exit is received once and the state is Stopped |
| Supervision.Supervisor.RestartTurn | internal/sim/gridlabd/supervisor.go:406-449 | a pending signal wins over the budget, judged on the whole history of attempts, and the budget over another attempt |
| Supervision.Supervisor.AttemptRestart | internal/sim/gridlabd/supervisor.go:428-448 | one attempt, its backoff, and the generation it adds when it succeeds |
| Supervision.RunIsTold | internal/sim/gridlabd/supervisor.go:338-451 | every run has a chronicle of wakeups and attempts: a lost sidecar is followed by an attempt unless a signal is pending or the budget is spent, and the last moment alone explains the exit |
| Supervision.Supervisor.Run | internal/sim/gridlabd/supervisor.go:338-451 | at most one unreaped sidecar, none on return, healthy iff Up, first start decided once, attempts spaced by the budget; a chronicle tells its exit, attempts and generation |
| FleetDevices.FleetDevice.Resync | internal/inverter/device/fleet.go:161-180 | after a noticed restart the remembered setpoint is set and stepped before the generation is accepted |
| FleetDevices.FleetDevice.ReadState | internal/inverter/device/fleet.go:182-228 | keeps setpoint survival; after a noticed restart sets and steps the remembered setpoint, then reads, and nothing else; a reading exactly when every call and every value is usable |
| FleetDevices.FleetDevice.ApplySetpoint | internal/inverter/device/fleet.go:237-286 | keeps setpoint survival; re-applies before its own write; without a restart a failure costs the setpoint in force exactly when another one reached the model |
| FleetDevices.FleetDevice.Command | internal/inverter/device/fleet.go:246-276 | writes, steps and reads back in that order, and remembers the setpoint only when all three succeed; the model changes exactly when the write reached it |
| FleetDevices.FleetDevice.SidecarRestarts | internal/inverter/device/fleet.go:140-147 | a restart at any moment keeps setpoint survival |
| FleetDevices.FailedApplyDiverges | internal/inverter/device/fleet.go:246-251 | a failed apply that was applied leaves model and memory apart |
| Batch.Set | sim/gridlabd/gldsidecar/adapter.py:104-139 | succeeds exactly when nothing fails, as sequential writes with a read-back each; otherwise the store is unchanged; malformed exactly when the first bad item lacks a field |
| Batch.Restore | sim/gridlabd/gldsidecar/adapter.py:141-147 | restores every touched property, also one named several times |
| Curve.SearchPoints | internal/inverter/voltvar.go:22-25 | the search on unsorted points returns an index whose neighbours straddle x |
| Curve.EvaluateCurve | internal/inverter/voltvar.go:8-36 | total on any list, and equal to the specified curve |
| Curve.BoundedByPoints | internal/inverter/voltvar.go:8-36 | on any non-empty list the result lies between two of its Ys |
| Curve.IsInterpolant | internal/inverter/voltvar.go:8-36 | on sorted points it is the interpolant of whichever segment spans x, except exactly at a first X shared with a different Y |
| Curve.InterpolatesExactly | internal/inverter/voltvar.go:5-7 | it is the interpolant for all Ys, above the first X, exactly when no X above the first is followed by a smaller one |
| Curve.Monotone | internal/inverter/voltvar.go:8-36 | sorted points with rising Ys give a rising curve |

## Left out

- Supervision.Supervisor.Run: cut off where its script of events ends, because the source's loop need not end; every result holds at each cut. Waiting is not modelled, only the delay chosen and the clock readings taken.
- Supervision.Supervisor.Stop: blocking until Run returns, and socket files.
- Batch.Native.WriteBack: a native write of a value the model reported is assumed to succeed.
- FleetTick.ManagedFleet.Tick: mirrors, metering and DER reporting, and the controls an event asks for, which are inputs.
- FleetDevices.FleetDevice.ApplySetpoint: a read-back that does not decode counts as a failed one; connected, energized and mode, which are echoed.
- Metering.MovedStaysWithinRequest: power the devices go on giving after a failed read or write, which the code counts as none.
- Reservation.Reserver.Poll: log lines and the remembered response mRID, which decide only what is logged.
- Wire: partial writes, and the time a caller spends queued for the lock.
- Response posting and its retries, hrefs, subscriptions, discovery walks and default-control reads.
- `DERControlCache.Diff` and the single-device loop, which reads its cache while a poller writes it.
- Curves and controls of the single device, trip tables, alarms, scenarios, the guard and the HMI: finite tables that would only add easy members.
- Floating-point rounding, the distribution of the random draws, 64-bit overflow of times, and liveness.
