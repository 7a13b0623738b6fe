# Hotel room automation: a verified model

The system automates the climate of hotel rooms. It polls a property management system (Clock) for bookings,
decides for every room which phase it is in, derives from the phase a desired intent (heating mode, target,
water heater), numbers the intents of a room by version, and publishes them over MQTT from a transactional
outbox. A worker at each entrance receives the intents, at least once and in any order (section 4.3.2 of the MQTT
Version 5.0 specification), and writes them to G301 air conditioners over an unreliable Modbus line. Guests and staff can
put a room under manual control for a while.

This project models the three cores of that system and proves what they are for.

* **The entrance worker** (`Protocol`, `ProtocolSafety`, `ProtocolRuns`, `ProtocolTraces`, `ProtocolVerdicts`,
  `ProtocolProgress`, `Worker`, `Planner`, `Registers`, `Registry`). `Worker` holds the worker as an object with mutable rooms and attempts. Its methods refine
  `Protocol`, which gives each call as a function of the state, of the bus and of the clock. The bus is adversarial: its
  answer to an operation is any function of the whole history. It may be a value, a transport error, a ValueError, or no
  answer at all, because the call was abandoned there. So the state that an observer finds at a bus call is the state
  after a call that was abandoned at it, and invariants of reachable states hold at every bus call.
  `Simulator` and `Convergence` put the delayed-status simulator in the place of the bus.
* **From bookings to intents** (`Domain`, `StateMachine`, `Engine`, `Store`, `Control`, `ClockSync`, `DbSync`,
  `Assignments`, `HotelRuns`, `HotelOutbox`, `HotelLaws`, `Polling`). Evaluation and derivation are functions. The services are objects over a
  `Database` object whose tables they reassign; each transaction refines a function of the tables. `HotelRuns` lets
  synchronizations, ticks and commands follow each other in any order.
* **The outbox** (`Outbox`, `OutboxRuns`): the store and the publisher, and one sequential worker that may crash anywhere.

`Delivery` composes all three into one transition system, and `Restarts` says what a restart of the worker does in it. `Sequences` and `Arithmetic` hold general lemmas.

Instants are whole microseconds on the hotel's wall clock, dates are day numbers, temperatures are reals. Hashes are
the tuples that are hashed. Random ids are integers that the caller supplies. A database transaction is one step.

## Hypotheses

The theorems name what they need; these are the conditions that the code itself does not establish.

* *Later instants.* The newest row of a table is found by its time and then by its random id
  (`app/clock/db_sync.py:792-798`, `app/policy/control.py:410-416`). Runs are on time (`HotelRuns.OnTime`) when each step would
  write the newest rows of the rooms it evaluates. Without that, `HotelLaws.TieDecides` and `VersionAdvancesExactly` say exactly
  when an ended override stays ended and when a version is used up; `RevivalByTie` and `VersionTie` are instances.
* *Room matching agrees with room resolution.* A room looks at bookings that `_resolve_room` does not give it: by an id
  that equals a room key, or by a missing id compared with a missing id. `Assignments.MatchingAgrees` and `Tracked` ask
  for agreement; `UnknownBookingEscapes` shows the need, and `ViewIsKeptExactly` needs neither this nor the next hypothesis.
* *Faithful hash.* Bookings with one payload hash have the same fields (`Assignments.HashFaithful`); `StaleHashEscapes` shows the need.
* *Recalculation sees what its transaction wrote.* The runtime switches autoflush off (`app/runtime.py:69-73`) and nothing
  flushes the last assignment before the bookings are read back (`app/clock/db_sync.py:458`, `app/clock/db_sync.py:575`).
  The model takes the intended reading: the read sees it, as it does with SQLAlchemy's default setting.
* *One outbox worker* works on one batch at a time, and releases stale claims with empty hands, as
  `app/runtime.py:163-193` does. Recording does not check who claimed a row, so two racing workers are not covered.
* *One configuration.* Registry and policy stay the same over a run; `Assignments` allows a registry for each synchronization.

## Where the promise fails

* *Same-day stays.* The booking validator accepts them (`app/domain/models.py:49-55`), but with the default policy their
  preparation window opens at their checkout, and the intent validator raises. `Engine.DerivationRaisesExactly` gives the exact
  condition, `HotelRuns.RollsBackExactly` what it means for a transaction: one such room holds up all the others in it.
* *Order of bookings.* With same-day stays the order of the list can decide about manual control;
  `StateMachine.PhaseOrderExactly` gives the exact condition.
* *Maximum duration.* The default of 60 minutes is not compared with the policy's maximum; `Control.MaximumIsExceededExactly`
  and `MaximumIsKeptExactly` give the exact conditions.
* *One payload for one version.* Two recalculations of a room at one instant can give one version two payloads;
  `HotelLaws.VersionIsReusedExactly` gives the exact condition.
* *Skipped rooms.* A room that is not marked as affected can still see other bookings; `Assignments.ViewIsKeptExactly` says exactly when not.
* *Restart.* The worker keeps its watermarks in memory, as its documentation admits, so the applied version of a room can fall;
  `Restarts.AppliedFallsExactly` says exactly when.

## Model

| member | source | states |
|---|---|---|
| Delivery.DeliveryNeverClashes | app/g301_adapter/worker.py:181-186 | End-to-end delivery: under every interleaving of synchronizations, ticks, commands, outbox retries, crashes, stale releases, redelivery of anything ever handed to the broker in any order, and worker restarts, the "same version, different payload" rejection never fires. |
| Delivery.AppliedNeverDecreases | app/g301_adapter/worker.py:396-397 | Over the same moves without a restart of the worker, the applied version of every room never decreases. |
| Delivery.ClashExactly | app/g301_adapter/worker.py:177-186 | In every consistent worker state the payload rejection is returned if and only if the room is routed and the delivered version is the current attempt's version with another payload. |
| Delivery.MovesKeep | app/runtime.py:163-193 | The invariant of database, outbox and worker together is kept by every sequence of moves: outbox rows are exactly the messages transactions wrote, and every payload the worker holds was issued. |
| Delivery.RestartForgets | docs/future-adapter-contract.md:80-81 | After a restart the next delivery of a routed room is never answered as stale and its version becomes the highest seen, however old it is; Restarts says what becomes of the applied version. |
| Restarts.AppliedFallsExactly | docs/future-adapter-contract.md:80-81 | On a bus that lets new versions end applied, the version applied after a restart is the highest redelivered; it falls below the one before exactly when every redelivery for the room is older, and is missing exactly when there is none. |
| Restarts.RedeliveryIsApplied | app/g301_adapter/worker.py:396-397 | On the simulated entrance a single redelivery after a restart is applied whatever was applied before: the applied version falls exactly when the redelivered one is older. |
| Restarts.AppliedWasRedelivered | app/g301_adapter/worker.py:396-397 | On every bus, whatever version is applied after a restart was redelivered after it. |
| Restarts.NewerRedeliveriesOnly | app/g301_adapter/worker.py:396-397 | On every bus, if no version older than some version is redelivered after a restart, the one applied is not older either. |
| ProtocolTraces.ApplyRecords | app/g301_adapter/worker.py:385-398 | A delivery raises the version seen to its own if that is not lower, moves the applied version only to its own, and surely does when it reports applied. |
| ProtocolTraces.SeenIsHighest | app/g301_adapter/worker.py:164-172 | Over every run the version seen is the highest delivered to the room, and the applied one was delivered. |
| ProtocolTraces.AppliedIsHighest | app/g301_adapter/worker.py:385-398 | On a bus that lets new versions end applied, the applied version is the highest delivered. |
| Worker.EntranceWorker.ApplyIntent | app/g301_adapter/worker.py:146-209 | One delivery to the worker object has the result and the new state that the protocol function gives, rooms not addressed included. |
| Worker.EntranceWorker.ApplyToState | app/g301_adapter/worker.py:162-209 | Version comparison, payload rejection, replay, resumption and execution on the mutable room state refine the protocol; a new attempt object is made exactly for a new version. |
| Worker.EntranceWorker.ExecuteIntent | app/g301_adapter/worker.py:211-245 | Resetting the attempt and the window and cooldown checks refine the protocol, whose execution ProtocolVerdicts.ExecutionByTheClock describes by the clock. |
| ProtocolVerdicts.ExecutionByTheClock | app/g301_adapter/worker.py:219-245 | In plain arithmetic: an intent that ended at least the skew ago is terminal as expired; one that starts later than the skew from now, or whose slave waits, stays retryable; none of these touches the bus or the failures. Every other execution goes on to planning, reaches the history unless planning refuses, and answers none of these. |
| ProtocolVerdicts.NewVersionByTheClock | app/g301_adapter/worker.py:171-245 | The same for the delivery of a new version, by the clock of that moment. |
| ProtocolVerdicts.DeliveryIsBooked | app/g301_adapter/worker.py:288-342 | What each answer does to the slave: a confirmed or refuted write clears its failures, an unconfirmed write or a retryable error adds exactly one with its delay, nothing else changes them; errors are reported by their own status, and a verdict rests on the complete sweep before it. |
| ProtocolVerdicts.AnsweredAtOnce | app/g301_adapter/worker.py:154-186 | A room that is not routed is answered as skipped, an older version as stale, another payload of the version as rejected, without the bus and without any change. |
| ProtocolVerdicts.DelaysDouble | app/g301_adapter/worker.py:505-508 | The first failure waits for the base, each further one twice as long until the maximum, and from the 17th on equally long. |
| Worker.EntranceWorker.PrepareAndWrite | app/g301_adapter/worker.py:246-268 | Profile read, planning and their failure branches refine the protocol. |
| Worker.EntranceWorker.WritePlan | app/g301_adapter/worker.py:268-288 | The write phase with its failure branches refines the protocol. |
| Worker.EntranceWorker.WriteRegisters | app/g301_adapter/worker.py:270-275 | The write loop records exactly the writes that were answered, in plan order. |
| Worker.EntranceWorker.ConfirmWrites | app/g301_adapter/worker.py:288-295 | Verification after writing and what it records for the slave refine the protocol. |
| Worker.EntranceWorker.ResumeVerification | app/g301_adapter/worker.py:297-342 | Resumption: cooldown check, verify first, execute again only after a mismatch. |
| Worker.EntranceWorker.VerifyAttempt | app/g301_adapter/worker.py:344-383 | A verification ends as the protocol says: confirmed, unconfirmed, mismatch, or left by an exception. |
| Worker.EntranceWorker.SetTerminal | app/g301_adapter/worker.py:385-398 | Marking terminal updates phase, cached result and watermarks and nothing else. |
| Worker.EntranceWorker.ReadDeviceProfile | app/g301_adapter/worker.py:409-428 | The two profile reads and the check of their answers refine the protocol. |
| Worker.EntranceWorker.ReadbackPlan | app/g301_adapter/worker.py:430-444 | The readback loop sweeps until a sweep agrees with the plan or the attempts are used up. |
| Worker.EntranceWorker.SweepRegisters | app/g301_adapter/worker.py:433-439 | One sweep reads every expected register, and stops at the first that cannot be read. |
| Worker.EntranceWorker.ReadRegister | app/g301_adapter/worker.py:446-456 | One register is read with retries; an answer of another length is a protocol error. |
| Worker.EntranceWorker.WithRetry | app/g301_adapter/worker.py:458-476 | An operation is repeated while it fails retryably and attempts are left. |
| Worker.EntranceWorker.RecordSlaveFailure | app/g301_adapter/worker.py:502-512 | A failure counts up and sets the cooldown of this slave, from the clock at that moment. |
| Worker.EntranceWorker.RecordSlaveSuccess | app/g301_adapter/worker.py:514-515 | A success forgets the failures of this slave. |
| Worker.StartWorker | app/g301_adapter/worker.py:75-128 | A worker is made exactly for valid settings and a known, enabled entrance; it starts idle and routes by the registry. |
| ProtocolRuns.ApplyKeepsInvariant | app/g301_adapter/worker.py:150-209 | One delivery, wherever the bus makes it stop, keeps the invariant of all rooms, lets the three watermarks of its room only grow, leaves other rooms and other slaves alone, and costs a bounded number of operations. |
| ProtocolRuns.WatermarksInReachableStates | app/g301_adapter/worker.py:162-203 | In every reachable state applied <= terminal <= seen; the attempt is that of the highest version seen, terminal exactly when that version is and then with a cached result; an attempt that may have written has its plan; so the RuntimeError and the assertions cannot fire. |
| ProtocolRuns.RunMonotone | app/g301_adapter/worker.py:171-172 | Over every run all three watermarks of every room are non-decreasing. |
| ProtocolTraces.VerifyBeforeRewrite | app/g301_adapter/worker.py:323-342 | Verify before rewrite: after each write phase and before the next one of its version lies a complete sweep of the registers of the plan that this write phase wrote, made in one unbroken run of bus operations, in which an answer of the bus differed from that plan. |
| ProtocolSafety.RewriteIsVerified | app/g301_adapter/worker.py:192-201 | A history without blind rewrites has a mismatch sweep between any two write phases of a version. |
| ProtocolSafety.SweepIsHonest | app/g301_adapter/worker.py:430-444 | What a sweep observed is what the bus answered in it. |
| ProtocolSafety.ResumeFine | app/g301_adapter/worker.py:297-342 | Resuming an attempt keeps the room consistent with the history, touches one slave, and costs at most two readbacks and one execution. |
| ProtocolSafety.ExecuteFine | app/g301_adapter/worker.py:211-295 | Executing an attempt keeps the room consistent with the history from the profile read to the final verification. |
| ProtocolSafety.VerifyFine | app/g301_adapter/worker.py:344-398 | Verifying keeps the room consistent; a mismatch that is not final makes another write phase permissible. |
| ProtocolSafety.BeginWritingFine | app/g301_adapter/worker.py:268-269 | Entering a write phase from a retryable attempt is never a blind rewrite. |
| ProtocolRuns.TerminalOnce | app/g301_adapter/worker.py:164-191 | Once a version is terminal, every later delivery of it or of an older one, after any run, causes no bus operation and changes nothing. |
| ProtocolRuns.TerminalResultIsReplayed | app/g301_adapter/worker.py:187-191 | While a terminal version is the highest seen, each redelivery of its payload returns the first terminal result with only the correlation id replaced. |
| ProtocolRuns.CostOfCall | app/g301_adapter/worker.py:430-476 | A call makes at most m(5 + 6r) bus operations for m operation attempts and r readback attempts. |
| ProtocolRuns.IsolatedSlaves | app/g301_adapter/worker.py:502-515 | A delivery addresses only its own slave and leaves the failure state of every other slave as it was. |
| ProtocolRuns.CooldownSparesTheBus | app/g301_adapter/worker.py:237-245 | While its slave cools down a delivery makes no bus operation and records no failure. |
| ProtocolRuns.CooldownBounds | app/g301_adapter/worker.py:505-508 | The delay is monotone in the number of failures and lies between base and maximum. |
| ProtocolRuns.DelaysInRuns | app/g301_adapter/worker.py:502-512 | In every run each failed slave waits exactly the delay of its failure count, from some past instant of the clock. |
| ProtocolProgress.FaultFreeDeliveryFinishes | app/g301_adapter/worker.py:211-342 | One delivery on a fault-free bus, inside the window and outside a cooldown, makes the version terminal from whatever state abandoned calls left. |
| ProtocolProgress.ExecuteFinishes | app/g301_adapter/worker.py:211-295 | An execution on a fault-free bus inside its window ends terminal. |
| ProtocolProgress.ResumeFinishes | app/g301_adapter/worker.py:297-342 | A resumption on a fault-free bus ends terminal, with or without a rewrite. |
| Registry.RoutingIsInjective | app/domain/models.py:129-135 | Registry validation makes the routing of an entrance injective, to addresses 1..255 of enabled rooms of that entrance. |
| Registry.SlaveAddressesExactly | app/g301_adapter/worker.py:109-113 | A room is routed exactly when it is enabled, belongs to the entrance and is mapped; to the address it is mapped to. |
| Planner.PlanRoomIntent | app/g301_adapter/planner.py:53-113 | The plan is built write by write as the planning function says, with the same refusals. |
| Planner.PlanSafety | app/g301_adapter/planner.py:53-173 | With an accepted device profile a valid intent is planned if and only if the slave is addressable and the device allows mode and target; the encoder's range error is never reached; the setpoint lies within ten times the device limits; the plan is safe. |
| Planner.PlannedIsSafe | app/g301_adapter/planner.py:129-173 | Every plan, whatever its profile, has word-sized writes, power last and only last, distinct readback addresses, and carries its intent's room and version. |
| Planner.PlanCarriesIntent | app/g301_adapter/planner.py:85-173 | Read back from what a plan expects, power, mode and target (within 0.05 degrees) are those of its intent, power and mode from the status registers. |
| Planner.LimitationOnTheRegister | app/g301_adapter/planner.py:176-187 | On the raw register: 1 refuses heating and automatic, 2 refuses cooling and automatic, 0 refuses nothing; a mode that is not refused is planned exactly for a target within the device's limits. |
| Planner.Mismatches | app/g301_adapter/planner.py:116-126 | A readback has no mismatches exactly when every expected register was observed with its expected value. |
| Registers.BuildDeviceProfile | app/g301_adapter/registers.py:108-130 | A profile is accepted exactly for a known limitation, a lower limit in 16..25 and an upper limit in 26..31. |
| Registers.EncodeSetTemperature | app/g301_adapter/registers.py:141-146 | Targets are encoded exactly between 16 and 31 degrees, to 160..310. |
| Registers.SetTemperatureWithinHalfStep | app/g301_adapter/registers.py:141-150 | Decoding an encoded target is within 0.05 degrees of it. |
| Registers.SetTemperatureRoundTrip | app/g301_adapter/registers.py:141-150 | Encoding a decoded register value is the identity on 160..310. |
| Registers.SetTemperatureStaysInLimits | app/g301_adapter/registers.py:141-146 | A target within whole-degree limits is encoded within ten times these limits, by rounding half to even. |
| Registers.IFeelRoundTrip | app/g301_adapter/registers.py:153-163 | Encoding a decoded ambient temperature is the identity on 1000..1500. |
| Simulator.RegisterSimulator.ReadHoldingRegisters | app/g301_adapter/simulator.py:29-41 | A read answers the registers as they were and brings every pending status in its range one read closer. |
| Simulator.RegisterSimulator.AdvancePendingStatus | app/g301_adapter/simulator.py:91-102 | Pending statuses in the range count down and are stored when they reach zero. |
| Simulator.RegisterSimulator.WriteRegister | app/g301_adapter/simulator.py:43-54 | A write stores the value and mirrors power and mode to their status registers, delayed or at once. |
| Simulator.EntranceSimulator.Perform | app/g301_adapter/simulator.py:109-147 | An operation goes to the device of its slave, and to no other; without one it is answered as offline. |
| Simulator.RespondKeepsDeviceOk | app/g301_adapter/simulator.py:85-102 | No operation lets a pending status have a non-positive number of reads left. |
| Convergence.DelayedStatusConvergence | app/g301_adapter/simulator.py:29-102 | A new version delivered to the simulated entrance ends applied if and only if there are more readback attempts than the status delay or the statuses already were as planned, and as readback mismatch otherwise; the commands are stored in both cases, and the registers read back equal the plan when it is applied. |
| Convergence.SimulatedReadback | app/g301_adapter/worker.py:430-444 | A readback of a settling device agrees with the plan exactly when its attempts exceed the reads still pending. |
| Convergence.SimulatedWrites | app/g301_adapter/simulator.py:43-54 | Writing a plan to a simulated device succeeds and stores the writes in order. |
| StateMachine.ActiveBookingsForRoom | app/domain/state_machine.py:35-49 | The loop collects exactly the matching, active, not yet departed bookings, in order. |
| StateMachine.FindConflict | app/domain/state_machine.py:127-138 | The nested scan finds the first booking that overlaps a later one, and none only if no two overlap. |
| StateMachine.FirstConflict | app/domain/state_machine.py:127-138 | A conflict is found if and only if two bookings of the list overlap. |
| StateMachine.OverlapIsASharedNight | app/domain/state_machine.py:31-32 | Overnight stays overlap exactly when they share a night; a departure and an arrival on one day do not. |
| StateMachine.ConflictExactly | app/domain/state_machine.py:106-138 | CONFLICT is returned exactly when the room is enabled, no unknown booking matches, and two matching active stays overlap. |
| StateMachine.OrderIndependence | app/domain/state_machine.py:91-205 | For overnight stays, permuting the bookings changes neither phase nor expiry nor reason, and outside UNKNOWN and CONFLICT not the booking. |
| StateMachine.PhaseOrderExactly | app/domain/state_machine.py:149-157 | For all stays, some order of the bookings changes the phase if and only if two tied front-runners disagree on whether the override applies to them. |
| StateMachine.SameDayStaysCanBeAmbiguous | app/domain/state_machine.py:208-223 | A same-day stay beside an overnight one, with an override until its checkout: the order of the list decides about MANUAL_OVERRIDE. |
| StateMachine.ExpiryIsStable | app/domain/state_machine.py:91-205 | From an instant at which the room is RESERVED, PRE_ARRIVAL or OCCUPIED until its expiry, evaluation gives the same phase, booking, reason and expiry. |
| StateMachine.EvaluationIsLocal | app/domain/state_machine.py:106-147 | An evaluation depends only on the bookings that concern the room. |
| StateMachine.EvaluationShape | app/domain/state_machine.py:137-205 | Each phase comes with its window: which phases expire, and from when their intents hold; PhaseTable says which phase it is. |
| StateMachine.PhaseTable | app/domain/state_machine.py:140-205 | For every front-runner of a decided room, in plain arithmetic: MANUAL_OVERRIDE if and only if the override rules for the selected front-runner; otherwise CHECKOUT_DUE, OCCUPIED, PRE_ARRIVAL and RESERVED each if and only if status and instants say so. |
| StateMachine.OvernightTable | app/domain/state_machine.py:140-205 | With overnight stays the booking is the one front-runner; override, phase, start and expiry are given by it and the clock. |
| StateMachine.VacantExactly | app/domain/state_machine.py:140-147 | A decided room is VACANT if and only if no booking is a stay in it that has not departed. |
| StateMachine.UndecidedTable | app/domain/state_machine.py:98-138 | DISABLED, UNKNOWN and CONFLICT each if and only if, in this order of precedence, and attention exactly for the last two. |
| StateMachine.FrontrunnerIsUnique | app/domain/state_machine.py:208-223 | Among overnight stays without overlap exactly one booking can be selected. |
| Domain.OverrideStaysInactive | app/domain/models.py:209-224 | An override that is inactive for a booking never becomes active for it by the passing of time. |
| Engine.DeriveRoomIntent | app/policy/engine.py:24-158 | Whatever is derived passes the intent validators and is for the evaluated room; IntentOfPhase says what it is. |
| Engine.IntentOfPhase | app/policy/engine.py:34-132 | In each phase: under an override its modes, its water heater and the point of the range nearest to its target; for a guest automatic mode, the point nearest to the heating target and everything on; before an arrival heating to the heating target and the rest as the policy says; reserved off; vacant at the setback; suppressed forced off. |
| Engine.IntentTable | app/policy/engine.py:34-122 | The same from the bookings and the clock, for every front-runner of a decided room. |
| Engine.VacantIntent | app/policy/engine.py:66-80 | A decided room without a stay is heated to the setback, whatever override is stored for it. |
| Engine.DerivationRaisesExactly | app/domain/models.py:265-274 | Deriving from an evaluated room raises if and only if the room is in pre-arrival for a stay whose preparation window does not open before its checkout. |
| Engine.OvernightStaysDerive | app/policy/engine.py:24-158 | For stays of at least one night the derivation never raises. |
| Engine.SameDayStayRaises | app/domain/models.py:162-175 | With the default times and lead a same-day stay, which the booking validator accepts, makes the derivation raise. |
| Engine.UndecidedRoomIsForcedOff | app/policy/engine.py:54-64 | A room that is disabled, matches an unknown booking or has colliding stays derives an intent that forces everything off without an end, whatever override is stored. |
| Engine.NothingIsHeatedForNobody | app/policy/engine.py:34-118 | Water heater and convectors are switched on only for a booking of this room that has not departed and is checked in, due within the lead time, or under an override in force for it. |
| Engine.TargetInRangeExactly | app/domain/models.py:189-190 | A derived target lies in the policy range if and only if the two targets that are not clamped do: the vacant setback, and the heating target before an arrival. |
| Engine.DerivationIsStable | app/policy/engine.py:24-158 | Up to the expiry the derived intent changes in nothing but its start and its correlation id. |
| Control.RoomControlCommandService.BuildOverrideRow | app/policy/control.py:191-290 | The row is assigned branch by branch as the specification of commands says, with the same refusals; CommandIsObeyed says what the rows are. |
| Control.CommandIsObeyed | app/policy/control.py:203-290 | On rows: an accepted command has the commanded value (the point of the range nearest to the wanted temperature, the wanted mode, water heater or length), and everything it does not set goes on from the override in force, or from the defaults without one; also what a mode fills in for a missing target. |
| Control.RefusedExactly | app/policy/control.py:246-271 | A command is refused exactly when its payload was not understood, when it sets a duration without an override in force or beyond the maximum, or when it would last until the checkout of no reservation; a row until checkout names the booking of the newest state. |
| Control.ReservationExactly | app/policy/control.py:352-378 | There is a reservation to last for exactly when the newest state has a guest's phase and a stored booking whose checkout lies ahead. |
| Control.OverrideIsTheRow | app/policy/control.py:497-514 | An evaluation sees the newest row as its override exactly while the row's own end lies ahead, field by field. |
| Control.ControlStateShowsRow | app/policy/control.py:457-484 | The published control state shows the row while its end lies ahead, and automatic control afterwards. |
| Control.RoomControlCommandService.ApplyMqttCommand | app/policy/control.py:61-159 | An accepted command appends its row and its control message; a refused one changes nothing. |
| Control.CommandKeepsChain | app/policy/control.py:191-304 | On a well-formed chain every command builds a well-formed row: HVAC off exactly without a target, targets in the clamp range, timed rows ending a supported duration after their start, rows until checkout with their booking and a boundary at its departure. |
| Control.DraftRoundTrip | app/policy/control.py:292-304 | What a command stored is what the next one starts from: reading the new row back while it is active gives the draft it was made of, clamped. |
| Control.FieldCommandsCommute | app/policy/control.py:238-259 | On a running manual override, commands for temperature, duration and water heater can be given in either order. |
| Control.DurationIsRecovered | app/policy/control.py:562-575 | The duration read back from a timed row is the one it was made with. |
| Control.MaximumIsExceededExactly | app/policy/control.py:545-550 | On a well-formed chain a timed row exceeds the policy's maximum exactly when it has the default duration and the maximum is shorter than that. |
| Control.MaximumIsKeptExactly | app/policy/control.py:545-550 | All commands on all well-formed chains keep the policy's maximum exactly when it is at least the default 60 minutes. |
| Control.DefaultDurationCanExceedMaximum | app/policy/control.py:545-550 | An instance for every valid policy with a maximum below 60 minutes: the first command for a room exceeds it. |
| Control.WellFormedIsAccepted | app/policy/control.py:497-514 | What is active of a well-formed row is an override that the derivation accepts. |
| Control.RowAndOverrideAgree | app/policy/control.py:428-437 | A well-formed row is in force for a booking in the evaluation exactly when the row is active and, until checkout, bound to that booking. |
| Store.LatestOverrideIsNewest | app/policy/control.py:410-416 | The newest override is a row of the room, and no row of it starts later or starts together with it under a greater id. |
| Store.LatestStateIsNewest | app/clock/db_sync.py:792-798 | The newest state is a row of the room, and no row of it was created later or together with it under a greater id. |
| Store.NothingIsNewer | app/clock/db_sync.py:792-798 | For every weak order the row that the descending query puts first is a maximum of the table. |
| DbSync.ClockDbSyncService.UpsertBooking | app/clock/db_sync.py:328-376 | A booking is added or replaced in place, and reported as changed exactly when it is new or its hash differs. |
| DbSync.ClockDbSyncService.SyncAssignmentOf | app/clock/db_sync.py:378-497 | The assignment rows, the affected rooms and the current room after each branch. |
| DbSync.ClockDbSyncService.SyncAll | app/clock/db_sync.py:137-167 | The loop over a synchronization's bookings folds the step of one booking. |
| DbSync.ClockDbSyncService.RecalculateOne | app/clock/db_sync.py:592-713 | One room: evaluation, derivation, ending the override, suppression of an equal hash, versioned row and messages; HotelOutbox says what the outbox shows afterwards. |
| HotelOutbox.HashIsFaithful | app/clock/db_sync.py:952-982 | The semantic hash tells states and intents apart exactly by their fields other than start, version, correlation id and payload hash. |
| HotelOutbox.EvaluationIsShown | app/clock/db_sync.py:618-682 | After every run that ends with an evaluation of a room, its newest PMS state is that evaluation and its newest intent what is derived from it, apart from start, version and correlation id; a row is added if and only if the outbox did not show that already. |
| HotelOutbox.SynchronizationIsShown | app/clock/db_sync.py:618-682 | The same for a synchronization and the rooms it affects. |
| HotelOutbox.RecalculationIsShown | app/clock/db_sync.py:618-682 | One recalculation adds a row, a PMS state and an intent of the next version if and only if the newest messages differ from what it found, and nothing but control messages otherwise. |
| HotelOutbox.NewestRowIsShown | app/clock/db_sync.py:650-665 | In every reachable record the newest state row has the phase, booking and version of the newest messages. |
| DbSync.ClockDbSyncService.RecalculateAffected | app/clock/db_sync.py:567-720 | The loop over the affected rooms; it stops when a derivation raises. |
| DbSync.ClockDbSyncService.EndInactiveOverrideIfNeeded | app/clock/db_sync.py:722-770 | An automatic row is added exactly when the newest row is an override and the room is not under it. |
| DbSync.ClockDbSyncService.EvaluateRoomKeys | app/clock/db_sync.py:233-261 | Evaluating rooms commits all of its changes or none. |
| DbSync.ClockDbSyncService.EvaluateAllRooms | app/clock/db_sync.py:207-231 | A policy tick evaluates every room of the registry. |
| DbSync.ClockDbSyncService.ApplyResult | app/clock/db_sync.py:103-186 | A failed poll changes nothing; a successful one commits bookings, rooms, messages and cursor together, or nothing. |
| DbSync.LastMatch | app/clock/db_sync.py:310-312 | Of several matching entries the one after which none matches is found, and none only if there is none. |
| Assignments.AssignmentHistory | app/clock/db_sync.py:378-510 | Over every run of synchronizations each booking has at most one current row, of the room identity it was last synchronized with; its intervals do not overlap; the stored booking equals the last synchronized one; no booking is missing. |
| Assignments.ClosedRowsStay | app/clock/db_sync.py:402-403 | Over every later run a booking keeps its place and its closed rows; no row changes what it assigned. |
| Assignments.TransactionIsEvents | app/clock/db_sync.py:141-167 | A synchronization stores what its bookings one after the other store, so the history results hold for transactions. |
| Assignments.SyncKeepsUnaffected | app/clock/db_sync.py:141-174 | Every room outside the reported affected set sees exactly the same bookings before and after a synchronization. |
| Assignments.IncrementalAgreesWithFull | app/clock/db_sync.py:141-174 | Recalculating a room outside the affected set gives what it would have given before the synchronization, at every instant, for every policy and record: skipping it loses nothing. |
| Assignments.StaysTracked | app/clock/db_sync.py:512-523 | Where room matching agrees with room resolution, whatever an evaluation looks at stays stored as assigned to that room. |
| Assignments.ResolvedExactly | app/clock/db_sync.py:512-523 | A booking resolves to the last room with its non-empty Clock id, otherwise to the room of its non-empty number, otherwise to none. |
| Assignments.ResolvedRoomLooks | app/domain/state_machine.py:40-46 | The room that a booking resolves to is one that looks at it. |
| Assignments.AffectedExactly | app/clock/db_sync.py:389-497 | The affected rooms of a booking are exactly the room it was in and the room it is in, if its assignment moved, and the room it is in, if its hash changed. |
| Assignments.ViewIsKeptExactly | app/clock/db_sync.py:141-174 | With no hypothesis on matching or hashes: a synchronization leaves a room's view alone if and only if, for every booking as it brings it last, the stored and the coming booking either both do not concern the room, or both do and are equal. |
| Assignments.OneBookingExactly | app/clock/db_sync.py:141-174 | The same for the synchronization of one booking. |
| Assignments.SameViewSameRecalculation | app/domain/state_machine.py:106-147 | Where the view is the same, recalculating the room gives the same, for every record, policy and instant. |
| Assignments.UnknownBookingEscapes | app/domain/state_machine.py:107-115 | Without that agreement it fails: an unassigned booking of unknown status stops a room without a Clock id but does not mark it as affected. |
| Assignments.StaleHashEscapes | app/clock/db_sync.py:356-356 | Without a faithful hash it fails as well: with matching in order, a guest who checks in under an unchanged payload hash changes the room's phase but does not mark it as affected. |
| HotelRuns.OnePayloadPerVersion | app/clock/db_sync.py:634-682 | In every run a room's intents stand in the outbox with strictly increasing versions, so each version has exactly one payload. |
| HotelRuns.StepKeepsTables | app/clock/db_sync.py:567-720 | Every synchronization, tick and command keeps each room's rows in order and one intent in the outbox per version. |
| HotelRuns.RecalculationKeepsRecord | app/clock/db_sync.py:634-657 | A recalculation adds at most one state row, of the next version, and with it exactly one intent of that version. |
| HotelRuns.RoomsAreIndependent | app/clock/db_sync.py:592-713 | A room's record and intents after a transaction are those of recalculating it alone. |
| HotelRuns.OverrideChainIsWellFormed | app/policy/control.py:273-290 | In every run every override row is well formed, and what is active of it can be derived from. |
| HotelRuns.RollsBackExactly | app/clock/db_sync.py:607-613 | A transaction is rolled back if and only if one of its rooms is in pre-arrival for a stay whose preparation window does not open before its checkout; that room holds up all others. |
| HotelRuns.OvernightRunsCommit | app/clock/db_sync.py:607-613 | With overnight stays no evaluation is ever rolled back, whatever commands and ticks went before. |
| HotelLaws.NoRevival | app/policy/control.py:410-437 | Once an override has ended, no sequence of synchronizations, moves, ticks and other commands brings the room back under manual control, with whatever bookings, until a command starts a new one. |
| HotelLaws.RecalculationEndsOverride | app/clock/db_sync.py:733-736 | After a recalculation the override has ended exactly when the room was not found under it. |
| HotelLaws.OverrideInForce | app/domain/state_machine.py:149-157 | In every reachable record a room is under manual control only by its newest row and before that row's end; until checkout only while the row's own booking is selected. |
| HotelLaws.OverrideRowIsFollowed | app/policy/engine.py:34-52 | Under manual control the room's intent is that of its newest override row: control mode, mode, nearest target, water heater and end. |
| HotelLaws.TieDecides | app/runtime.py:248-275 | When a command and the evaluation after it share one instant, an override that ends at once stays ended exactly when the automatic row's id is the greater one. |
| HotelLaws.RevivalByTie | app/runtime.py:248-275 | With the smaller id it does not: a command for a vacant room takes effect on the next guest. |
| HotelLaws.VersionAdvancesExactly | app/clock/db_sync.py:985-988 | A recalculation that emits an intent uses its version up exactly when its row becomes the newest: later than the newest row or, at the same instant, without a smaller id. |
| HotelLaws.VersionIsReusedExactly | app/clock/db_sync.py:985-988 | Two intents that follow each other share one version exactly when the first one's row did not become the newest. |
| HotelLaws.VersionTie | app/clock/db_sync.py:792-798 | A witness, for every room and policy: two intents of one version with different payloads, for an expected guest and for the guest in the room, after a recalculation that tied with the newest state and had the smaller id. |
| HotelLaws.TickIsQuiet | app/clock/db_sync.py:618-632 | Recalculating a settled room again before its expiry adds no row, no message and no version. |
| HotelLaws.TicksDoNotChurn | app/clock/db_sync.py:207-231 | After an evaluation, evaluating these rooms again within their horizons leaves the tables exactly as they are. |
| HotelLaws.RepeatIsQuiet | app/clock/db_sync.py:618-632 | A recalculation that finds the room in the state of the one before, in whatever phase, adds no row, no message and no version. |
| HotelLaws.RepeatedTicksDoNotChurn | app/clock/db_sync.py:207-231 | After an evaluation, evaluating rooms again that are found as they were, in whatever phases, leaves the tables exactly as they are. |
| ClockSync.PollOnce | app/clock/sync.py:60-100 | The poll loop follows the continuation of each page, returns all payloads of all pages or fails as a whole, and leaves the cursor alone when it fails. |
| ClockSync.CursorAfterPolls | app/clock/sync.py:86-99 | The stored cursor has no page to continue with and holds the time of the last committed poll. |
| ClockSync.NoGaps | app/clock/sync.py:28-36 | The windows of committed polls cover every instant from the first window's start to the last success. |
| ClockSync.WindowsReachBack | app/clock/sync.py:28-36 | Before any committed poll a window reaches back the reconciliation days; afterwards it overlaps the last committed poll by the overlap seconds. |
| Polling.CursorIsStored | app/clock/db_sync.py:853-881 | Over every run of polls, ticks and commands the cursor in the database is that of the last committed poll. |
| Polling.PollsLeaveNoGap | app/clock/sync.py:60-100 | Poll coverage for the database itself: failed and rolled back polls leave no gap, and the continuation cursor is always empty. |
| Outbox.OutboxStore.ClaimPendingRows | app/outbox/service.py:86-122 | The claim marks rows one by one and hands out their messages as the claim function says. |
| Outbox.OutboxStore.RecordPublishResults | app/outbox/service.py:124-151 | Each result is recorded on its row; results without a row are ignored. |
| Outbox.OutboxStore.ReleaseStalePublishing | app/outbox/service.py:153-172 | Exactly the rows claimed too long ago are released; the count is their number. |
| Outbox.OutboxStore.RetryAllDeadLetters | app/outbox/service.py:174-186 | Exactly the dead letters are put back; the count is their number. |
| Outbox.PublishPending | app/outbox/service.py:47-77 | A batch gets one result for each message, with its id, and one attempt at the broker for each message, in order, after what was there; a result is published exactly when its attempt was acknowledged. |
| OutboxRuns.PublishingIsStepwise | app/outbox/service.py:47-77 | Publishing the first messages of a batch is taking that many publishing steps of the worker, each of them enabled, so a crash can come between any two. |
| Outbox.Oldest | app/outbox/service.py:93-105 | The next row to claim is claimable and no claimable row is older. |
| OutboxRuns.ClaimTakes | app/outbox/service.py:93-122 | A claim takes at most the limit, only claimable rows, each once, and hands out exactly their messages. |
| OutboxRuns.ClaimTakesOldest | app/outbox/service.py:102-103 | A claimable row that was left is younger than every claimed one, and then the batch is full. |
| OutboxRuns.ClaimOnRows | app/outbox/service.py:93-110 | On rows: only pending or retrying rows whose time has come are claimed, each under the worker's name; one that is left was created later than every claimed one, or together with it under a greater id, and then the limit is taken. |
| OutboxRuns.NewRowsAreDue | app/outbox/service.py:174-182 | A new message can be claimed from its instant on, and a dead letter from the instant it is put back at, with its attempts kept. |
| OutboxRuns.OutboxRun | app/outbox/service.py:80-186 | Over every run of one worker with crashes anywhere: no row is lost or changes its payload, claim fields are set exactly while publishing, published rows are final and were acknowledged, dead letters have used up their attempts. |
| OutboxRuns.StepKeeps | app/runtime.py:163-193 | Each step of the worker keeps that invariant and changes each row only as its status allows; attempts grow only by a recorded failure, which ends in retrying exactly while attempts are left. |
| OutboxRuns.AttemptsAreBounded | app/outbox/service.py:143-150 | Without retrying dead letters, attempts stay below the maximum except for dead letters, which have exactly the maximum. |
| OutboxRuns.FailureUsesAnAttempt | app/outbox/service.py:143-150 | A recorded failure lowers the attempts left by one; the row waits between the base delay and the maximum delay plus jitter, or is a dead letter when none are left. |
| OutboxRuns.SuccessIsRecorded | app/outbox/service.py:134-141 | A success frees the row at the instant of its acknowledgement and uses no attempt. |
| OutboxRuns.RetryDelaysDouble | app/outbox/service.py:188-196 | Apart from the jitter the first failure waits for the base delay, and each further one twice as long until the maximum. |
| OutboxRuns.LostClaimIsReleased | app/outbox/service.py:159-172 | A claim lost in a crash is claimable after a release exactly when it is older than the stale limit. |
| OutboxRuns.RecordedAt | app/outbox/service.py:130-150 | Recording a batch treats every row by its own result and no other. |

## Left out

- Delivery.AppliedNeverDecreases: stops at a restart of the worker, because the watermarks are held in memory only; what happens across one is Restarts.AppliedFallsExactly.
- Assignments.IncrementalAgreesWithFull: assumes that room matching agrees with room resolution and that the hash is faithful, because it is false without either (UnknownBookingEscapes, StaleHashEscapes); the condition without assumptions is ViewIsKeptExactly.
- ClockSync.PollOnce: takes the pages as a finite list that ends, because the loop of the source has no bound of its own.
- Text of MQTT command payloads: commands are modelled from their parsed field, with one refusal for every parse error, also that of an undecodable payload.
- Audit events, synchronization run rows, `_validate_property`, `_audit_unassigned_if_needed`, `evaluate_unassigned_booking` and `approaching_unassigned_arrivals`: records and listings that nothing reads back.
- Booking fields that no decision looks at: number, source, room type, guests, first and last seen.
- The descriptions in readback mismatches, the free text of results, and the components and instants that results and payloads carry for display.
- The simulator's list of operations, its snapshot and `apply_plan`: the worker does not use them.
- Waiting: back-off between operation attempts and delay between readbacks pass time only through the clock, and an abandonment while waiting is that of the operation before.
- Concurrency inside the bus lock: deliveries are serialized, with abandonment at bus calls as the only interruption.
- Two outbox workers, row locks and `skip_locked`: the store has one sequential worker.
- The order in which affected rooms are recalculated: by registry here, by random id in the source; rooms are independent (HotelRuns.RoomsAreIndependent), so only the order of messages differs.
- The system's direct publications (availability, discovery, control states on reconnect): retained strings without a version.
- Time zones, daylight saving time, and NaN or infinite temperatures: outside of integer instants and real temperatures.
- Clock REST client, field mapping and normalization: the model starts from normalized bookings and from payloads that the normalizer rejects.
- `app/policy/commands.py`: a second command path that only the tests use.
- Fault bits, capability bits and system counters: lookups.
- HTTP routes, settings, migrations, dashboards and Home Assistant files: wiring and user interface.
