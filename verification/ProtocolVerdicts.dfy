/**
 What the answers of the entrance worker mean, in plain arithmetic: when an intent is answered without reaching the bus,
 and what each answer does to the failures of its slave.
 */
module ProtocolVerdicts {
  import opened Arithmetic
  import opened Domain
  import opened Planner
  import opened Protocol
  import opened ProtocolSafety
  import opened ProtocolRuns
  import Registers

  // The window and the cooldown

  lemma ReadingTouchesTheBus(env: Environment, s: Settings, slave: int, log: History)
    requires s.Valid()
    ensures |log| < |ReadProfile(env, s, slave, log).log|
  {
    RetryFacts(env, Read(slave, Registers.CAPABILITIES, 1), log, s.operationAttempts);
    var c := ReadOne(env, s, slave, Registers.CAPABILITIES, log);
    RetryFacts(env, Read(slave, Registers.MODE_LIMITATION, 3), c.log, s.operationAttempts);
  }

  /** A confirmation ends with a complete sweep that agrees with the plan, a mismatch with one that does not. */
  ghost predicate Backed(log: History, result: ExecutionResult) {
    && (result.status.Applied? ==>
        log != [] && log[|log| - 1].Swept? && CompareReadback(log[|log| - 1].plan, log[|log| - 1].observed) == [])
    && (result.status.ReadbackMismatch? ==>
        log != [] && log[|log| - 1].Swept? && CompareReadback(log[|log| - 1].plan, log[|log| - 1].observed) != [])
  }

  lemma VerdictOfVerification(env: Environment, s: Settings, intent: Intent, st: Local, terminalOnMismatch: bool)
    requires s.Valid() && st.room.attempt.Some? && st.room.attempt.value.plan.Some?
    requires DistinctAddresses(st.room.attempt.value.plan.value.expectations)
    ensures var v := Verify(env, s, intent, st, terminalOnMismatch);
            && st.log <= v.st.log && v.st.failures == st.failures
            && (v.Verdict? ==> v.result.status.Applied? || v.result.status.ReadbackMismatch? || v.result.status.AppliedUnconfirmed?)
            && (v.Verdict? ==> !v.result.message.InCooldown? && !v.result.message.TransportFailed?)
            && (v.Verdict? && v.result.status.ReadbackMismatch? ==> terminalOnMismatch)
            && (v.Verdict? ==> Backed(v.st.log, v.result))
            && v.st.room.attempt.Some?
  {
    hide Readback;
    ReadbackExtends(env, s, st.room.attempt.value.plan.value, st.log, s.readbackAttempts);
  }

  lemma {:induction false} ReadbackExtends(env: Environment, s: Settings, plan: Plan, log: History, attempts: nat)
    requires s.Valid() && 1 <= attempts && DistinctAddresses(plan.expectations)
    ensures var a := Readback(env, s, plan, log, attempts);
            log <= a.log && (a.result.Observed? ==> a.log != [] && a.log[|a.log| - 1] == Swept(plan, a.result.values))
    decreases attempts
  {
    hide Sweep, CompareReadback;
    SweepExtends(env, s, plan, log);
    var a := Sweep(env, s, plan.slave, plan.expectations, map[], log);
    if a.result.Observed? && CompareReadback(plan, a.result.values) != [] && attempts > 1 {
      ReadbackExtends(env, s, plan, a.log + [Swept(plan, a.result.values)], attempts - 1);
    }
  }

  lemma SweepExtends(env: Environment, s: Settings, plan: Plan, log: History)
    requires s.Valid() && DistinctAddresses(plan.expectations)
    ensures log <= Sweep(env, s, plan.slave, plan.expectations, map[], log).log
  {
    SweepFacts(env, s, plan.slave, plan.expectations, map[], log);
  }

  /** One failure more is recorded for the slave, with its delay from the end of the call. */
  ghost predicate OneMoreFailure(env: Environment, s: Settings, slave: int, before: Failures, after: Local) {
    var count := FailureOf(before, slave).count + 1;
    after.failures == before[slave := Failure(count, Some(env.clock(after.log) + CooldownDelay(s, count)))]
  }

  /** What the answer of a call that worked on its attempt says about the slave. */
  ghost predicate Booked(env: Environment, s: Settings, slave: int, before: Failures, r: Reply) {
    if r.result.None? then
      r.st.failures == before
    else
      var result := r.result.value;
      if result.status.Applied? || result.status.ReadbackMismatch? then
        r.st.failures == before - {slave}
      else if result.status.AppliedUnconfirmed? || (result.message.TransportFailed? && result.message.error.Retryable()) then
        OneMoreFailure(env, s, slave, before, r.st)
      else
        r.st.failures == before
  }

  /** The status that an error is reported by, and the sweep that a verdict rests on. */
  ghost predicate Reported(log: History, result: Option<ExecutionResult>) {
    && (result.Some? ==> Backed(log, result.value))
    && (result.Some? && result.value.message.TransportFailed? ==>
      && (result.value.status.Offline? <==> result.value.message.error.DeviceOffline?)
      && (result.value.status.TimedOut? <==> result.value.message.error.TransportTimeout?)
      && (result.value.status.ModbusFailed? <==> result.value.message.error.ModbusException?)
      && (result.value.status.Failed? <==> result.value.message.error.ProtocolError? || result.value.message.error.OtherTransportError?))
  }

  /** How a call goes that plans, and is not stopped by the clock. */
  ghost predicate Worked(env: Environment, s: Settings, slave: int, before: Local, r: Reply) {
    && Booked(env, s, slave, before.failures, r)
    && Reported(r.st.log, r.result)
    && (r.st.log != before.log || (r.result.Some? && r.result.value.status.Rejected?))
    && (r.result.Some? ==> !r.result.value.status.Expired? && !r.result.value.status.NotYetEffective? && !r.result.value.message.InCooldown?)
  }

  lemma ConfirmingWorks(env: Environment, s: Settings, intent: Intent, slave: int, st: Local)
    requires s.Valid() && st.room.attempt.Some? && st.room.attempt.value.plan.Some?
    requires DistinctAddresses(st.room.attempt.value.plan.value.expectations)
    ensures var r := ConfirmFresh(env, s, intent, slave, st);
            && st.log <= r.st.log && Booked(env, s, slave, st.failures, r) && Reported(r.st.log, r.result)
            && (r.result.Some? ==> !r.result.value.status.Expired? && !r.result.value.status.NotYetEffective? && !r.result.value.message.InCooldown?)
  {
    hide Verify, CooldownDelay;
    VerdictOfVerification(env, s, intent, WithAttempt(st, st.room.attempt.value.(phase := VerificationPending)), true);
  }

  lemma WritingWorks(env: Environment, s: Settings, intent: Intent, slave: int, plan: Plan, st: Local)
    requires s.Valid() && st.room.attempt.Some? && DistinctAddresses(plan.expectations)
    ensures var r := WriteOut(env, s, intent, slave, plan, st);
            Worked(env, s, slave, st, r) && st.log <= r.st.log
  {
    hide ConfirmFresh, WriteAll, CooldownDelay;
    var started := BeginWriting(st, plan);
    WriteAllFacts(env, s, slave, plan.writes, 0, started.log);
    var w := WriteAll(env, s, slave, plan.writes, 0, started.log);
    ConfirmingWorks(env, s, intent, slave, AfterWrites(started, plan, w));
    assert |st.log| < |started.log| <= |w.log|;
  }

  lemma PreparingWorks(env: Environment, s: Settings, intent: Intent, slave: int, st: Local)
    requires s.Valid() && st.room.attempt.Some?
    ensures Worked(env, s, slave, st, Prepare(env, s, intent, slave, st))
  {
    hide WriteOut, ReadProfile, PlanOf, CooldownDelay;
    ReadProfileFacts(env, s, slave, st.log);
    ReadingTouchesTheBus(env, s, slave, st.log);
    var p := ProfileFor(env, s, intent, slave, st.log);
    var planning := PlanOf(intent, slave, p.result.Device());
    if planning.Planned? {
      PlannedIsSafe(intent, slave, p.result.Device());
      WritingWorks(env, s, intent, slave, planning.plan, st.(log := p.log));
    }
  }

  /** The slave waits after a failure. */
  predicate Waits(failures: Failures, slave: int, now: int) {
    slave in failures && failures[slave].retryAfter.Some? && now < failures[slave].retryAfter.value
  }

  /**
   An execution by the clock. If the intent ended at least the skew ago, it is terminal as expired; if it starts later
   than the skew from now, or its slave waits, it stays retryable; neither touches the bus or the failures. Otherwise the
   call goes on to planning, and its answer says none of these.
   */
  lemma ExecutionByTheClock(env: Environment, s: Settings, intent: Intent, slave: int, st: Local)
    requires s.Valid() && st.room.attempt.Some?
    ensures var now := env.clock(st.log);
            var r := Execute(env, s, intent, slave, st);
            if intent.expiresAt.Some? && intent.expiresAt.value + s.skew <= now then
              && r.result.Some? && r.result.value.status.Expired?
              && r.st.room.terminal == Some(st.room.attempt.value.version) && r.st.room.attempt.value.phase.Terminal?
              && r.st.log == st.log && r.st.failures == st.failures
            else if now + s.skew < intent.effectiveFrom then
              && r.result.Some? && r.result.value.status.NotYetEffective?
              && r.st.room.terminal == st.room.terminal && r.st.room.attempt.value.phase.Retryable?
              && r.st.log == st.log && r.st.failures == st.failures
            else if Waits(st.failures, slave, now) then
              && r.result.Some? && r.result.value.status.Offline? && r.result.value.message.InCooldown?
              && r.st.room.terminal == st.room.terminal && r.st.room.attempt.value.phase.Retryable?
              && r.st.log == st.log && r.st.failures == st.failures
            else
              Worked(env, s, slave, st, r)
  {
    hide Prepare, Worked;
    PreparingWorks(env, s, intent, slave, Reset(st));
    WorkedFromReset(env, s, slave, st, Prepare(env, s, intent, slave, Reset(st)));
  }

  lemma WorkedFromReset(env: Environment, s: Settings, slave: int, st: Local, r: Reply)
    requires st.room.attempt.Some? && Worked(env, s, slave, Reset(st), r)
    ensures Worked(env, s, slave, st, r)
  {
  }

  /** A delivery of a new version does at once what its execution does by the clock of that moment. */
  lemma NewVersionByTheClock(env: Environment, s: Settings, ws: WorkerState, intent: Intent)
    requires s.Valid() && intent.roomKey in s.slaves && !NotAbove(Some(intent.version), RoomOf(ws, intent.roomKey).seen)
    ensures var delivered := ws.log + [Delivered(intent)];
            var now := env.clock(delivered);
            var d := Apply(env, s, ws, intent);
            var room := RoomOf(d.st, intent.roomKey);
            if intent.expiresAt.Some? && intent.expiresAt.value + s.skew <= now then
              && d.result.Some? && d.result.value.status.Expired? && room.terminal == Some(intent.version)
              && d.st.log == delivered && d.st.failures == ws.failures
            else if now + s.skew < intent.effectiveFrom then
              && d.result.Some? && d.result.value.status.NotYetEffective? && room.terminal == RoomOf(ws, intent.roomKey).terminal
              && d.st.log == delivered && d.st.failures == ws.failures
            else if Waits(ws.failures, s.slaves[intent.roomKey], now) then
              && d.result.Some? && d.result.value.message.InCooldown? && room.terminal == RoomOf(ws, intent.roomKey).terminal
              && d.st.log == delivered && d.st.failures == ws.failures
            else
              d.st.log != delivered || (d.result.Some? && d.result.value.status.Rejected?)
  {
    hide Execute, Booked, Reported;
    var key := intent.roomKey;
    var st := View(ws.(log := ws.log + [Delivered(intent)]), key);
    var room := st.room.(seen := Some(intent.version), attempt := Some(NewAttempt(intent)));
    ExecutionByTheClock(env, s, intent, s.slaves[key], st.(room := room));
  }

  // The failures of the slave

  /** The room works on the delivered intent: it is new, or its attempt has not ended and has the same payload. */
  predicate Open(room: RoomState, intent: Intent) {
    || room.seen.None?
    || room.seen.value < intent.version
    || (room.seen == Some(intent.version) && room.terminal != room.seen
        && room.attempt.Some? && room.attempt.value.fingerprint == intent.StablePayload())
  }

  lemma ExecutionIsBooked(env: Environment, s: Settings, intent: Intent, slave: int, st: Local)
    requires s.Valid() && st.room.attempt.Some?
    ensures var r := Execute(env, s, intent, slave, st);
            Booked(env, s, slave, st.failures, r) && Reported(r.st.log, r.result)
  {
    hide Execute, OneMoreFailure;
    ExecutionByTheClock(env, s, intent, slave, st);
    ClockAnswers(env, s, intent, slave, st);
  }

  /** The clock stops the execution. */
  predicate Stopped(s: Settings, intent: Intent, slave: int, failures: Failures, now: int) {
    || (intent.expiresAt.Some? && intent.expiresAt.value + s.skew <= now)
    || now + s.skew < intent.effectiveFrom
    || Waits(failures, slave, now)
  }

  lemma ClockAnswers(env: Environment, s: Settings, intent: Intent, slave: int, st: Local)
    requires s.Valid() && st.room.attempt.Some?
    ensures var now := env.clock(st.log);
            var r := Execute(env, s, intent, slave, st);
            Stopped(s, intent, slave, st.failures, now) ==>
              r.result.Some? && !r.result.value.message.TransportFailed? && !r.result.value.status.Applied? && !r.result.value.status.ReadbackMismatch?
  {
    hide Prepare;
  }

  lemma ResumptionIsBooked(env: Environment, s: Settings, intent: Intent, slave: int, st: Local)
    requires s.Valid() && st.room.attempt.Some?
    requires st.room.attempt.value.plan.Some? ==> DistinctAddresses(st.room.attempt.value.plan.value.expectations)
    ensures var r := Resume(env, s, intent, slave, st);
            Booked(env, s, slave, st.failures, r) && Reported(r.st.log, r.result)
  {
    hide Execute, Verify, CooldownDelay;
    ExecutionIsBooked(env, s, intent, slave, st);
    if st.room.attempt.value.plan.Some? {
      VerdictOfVerification(env, s, intent, st, false);
      ExecutionIsBooked(env, s, intent, slave, Verify(env, s, intent, st, false).st);
    }
  }

  /**
   What a delivery leaves behind for its slave: a confirmed or refuted write clears its failures; an unconfirmed write
   or a retryable transport error adds one failure with its delay; nothing else, and no answer that did not work on the
   attempt, changes them.
   */
  lemma DeliveryIsBooked(env: Environment, s: Settings, ws: WorkerState, intent: Intent)
    requires s.Valid() && WorkerInv(env, s, ws) && intent.roomKey in s.slaves
    ensures var d := Apply(env, s, ws, intent);
            var reply := Reply(View(d.st, intent.roomKey), d.result);
            if Open(RoomOf(ws, intent.roomKey), intent) then
              Booked(env, s, s.slaves[intent.roomKey], ws.failures, reply) && Reported(d.st.log, d.result)
            else
              d.st.failures == ws.failures
  {
    hide GoodLog, Unverified, ApplyToRoom, Booked, Reported;
    assert Consistent(env, intent.roomKey, s.slaves[intent.roomKey], View(ws, intent.roomKey));
    RoomDeliveryIsBooked(env, s, intent, s.slaves[intent.roomKey], View(ws.(log := ws.log + [Delivered(intent)]), intent.roomKey));
  }

  lemma RoomDeliveryIsBooked(env: Environment, s: Settings, intent: Intent, slave: int, st: Local)
    requires s.Valid() && RoomInv(st.room, intent.roomKey, slave)
    ensures var r := ApplyToRoom(env, s, intent, slave, st);
            if Open(st.room, intent) then Booked(env, s, slave, st.failures, r) && Reported(r.st.log, r.result)
            else r.st.failures == st.failures
  {
    hide Execute, Resume, Booked, Reported;
    var room := st.room.(seen := Some(intent.version), attempt := Some(NewAttempt(intent)));
    ExecutionIsBooked(env, s, intent, slave, st.(room := room));
    if st.room.attempt.Some? {
      ExecutionIsBooked(env, s, intent, slave, st);
      ResumptionIsBooked(env, s, intent, slave, st);
    }
  }

  /** What is answered at once, without the bus: a room that is not routed, an older version, another payload of the version. */
  lemma AnsweredAtOnce(env: Environment, s: Settings, ws: WorkerState, intent: Intent)
    requires s.Valid() && WorkerInv(env, s, ws)
    ensures var d := Apply(env, s, ws, intent);
            var room := RoomOf(ws, intent.roomKey);
            var skipped := intent.roomKey !in s.slaves;
            var stale := !skipped && room.seen.Some? && intent.version < room.seen.value;
            var clash := !skipped && room.seen == Some(intent.version) && room.attempt.value.fingerprint != intent.StablePayload();
            && (skipped ==> d.result.Some? && d.result.value.status.Skipped?)
            && (stale ==> d.result.Some? && d.result.value.status.Stale?)
            && (clash ==> d.result.Some? && d.result.value.status.Rejected?)
            && (skipped || stale || clash ==>
                && d.st.log == ws.log + [Delivered(intent)] && d.st.failures == ws.failures
                && RoomOf(d.st, intent.roomKey) == room
                && Answers(intent, d.result))
  {
    hide GoodLog, Unverified, Execute, Resume;
    if intent.roomKey in s.slaves {
      assert Consistent(env, intent.roomKey, s.slaves[intent.roomKey], View(ws, intent.roomKey));
    }
  }

  // The delays

  /** The first failure waits for the base, each further one twice as long until the maximum, and from the 17th on equally long. */
  lemma DelaysDouble(s: Settings, failures: nat)
    requires s.Valid() && 1 <= failures
    ensures CooldownDelay(s, 1) == s.retryBase
    ensures CooldownDelay(s, failures + 1) ==
            if failures >= 17 then CooldownDelay(s, failures)
            else if 2 * CooldownDelay(s, failures) <= s.retryMax then 2 * CooldownDelay(s, failures)
            else s.retryMax
  {
    if failures < 17 {
      DoubledProduct(s.retryBase, failures - 1);
    }
    ScaledOnce(s.retryBase);
  }
}
