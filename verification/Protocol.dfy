/**
 The entrance worker's protocol (app/g301_adapter/worker.py) as functions of its state, of the
 answers of the register bus and of its clock.

 The bus is adversarial: its answer to an operation is any function of everything that happened
 before. An answer may be a value, a transport error, a ValueError, or no answer at all, because the
 caller stopped waiting for it. The clock is any function of the same history.
 */
module Protocol {
  import opened Arithmetic
  import opened Domain
  import opened Registers
  import opened Planner

  // The bus and the clock

  datatype TransportError =
    | TransportTimeout
    | DeviceOffline
    | ModbusException
    | ProtocolError
    | OtherTransportError
  {
    predicate Retryable() {
      !ModbusException? && !ProtocolError?
    }
  }

  datatype Operation =
    | Read(slave: int, address: int, count: int)
    | Write(slave: int, address: int, value: int)

  datatype Outcome = Ok(values: seq<int>) | Fault(error: TransportError) | BadValue | Abandoned

  /**
   What happened so far: intents delivered, bus operations started, and two marks of the worker's
   own progress, the start of a write phase and the end of a complete readback sweep.
   */
  datatype Event =
    | Delivered(intent: Intent)
    | Bus(op: Operation)
    | WritePhase(plan: Plan)
    | Swept(plan: Plan, observed: map<int, int>)

  type History = seq<Event>

  datatype Environment = Environment(client: History -> Outcome, clock: History -> int)

  // Settings and state

  datatype Settings = Settings(
    operationAttempts: nat,
    readbackAttempts: nat,
    retryBase: int,
    retryMax: int,
    skew: int,
    slaves: map<string, int>)
  {
    /** What the constructor of the worker insists on. */
    predicate Valid() {
      && 1 <= operationAttempts
      && 1 <= readbackAttempts
      && 0 < retryBase <= retryMax
      && 0 <= skew
    }
  }

  datatype Phase = Retryable | Writing | VerificationPending | Terminal

  datatype Status =
    | Applied
    | AppliedUnconfirmed
    | Rejected
    | TimedOut
    | ModbusFailed
    | ReadbackMismatch
    | Offline
    | NotYetEffective
    | Expired
    | Stale
    | Failed
    | Skipped

  datatype Message =
    | NoMessage
    | NoSlaveConfigured
    | OlderThanSeen
    | PayloadClash
    | WindowExpired
    | WindowInFuture
    | InCooldown
    | NotPlannable
    | TransportFailed(error: TransportError)
    | VerificationFailed(error: TransportError)
    | StateDiffers

  datatype ExecutionResult = ExecutionResult(
    roomKey: string,
    version: int,
    status: Status,
    message: Message,
    writes: seq<RegisterWrite>,
    mismatches: seq<Mismatch>,
    correlationId: int)

  datatype Attempt = Attempt(
    version: int,
    fingerprint: Intent,
    phase: Phase,
    plan: Option<Plan>,
    completed: seq<RegisterWrite>,
    cached: Option<ExecutionResult>)

  datatype RoomState = RoomState(
    seen: Option<int>,
    terminal: Option<int>,
    applied: Option<int>,
    attempt: Option<Attempt>)

  const FreshRoom := RoomState(None, None, None, None)

  datatype Failure = Failure(count: nat, retryAfter: Option<int>)

  type Failures = map<int, Failure>

  /** What one call works on: one room, the slaves' failures and the history. */
  datatype Local = Local(room: RoomState, failures: Failures, log: History)

  /** The state after a call and its result; no result when an exception or a cancellation left the call. */
  datatype Reply = Reply(st: Local, result: Option<ExecutionResult>)

  datatype WorkerState = WorkerState(rooms: map<string, RoomState>, failures: Failures, log: History)

  // Operations with retries

  datatype Answer = Answer(log: History, outcome: Outcome)

  function Retry(env: Environment, op: Operation, log: History, attempts: nat): Answer
    requires 1 <= attempts
    decreases attempts
  {
    var now := log + [Bus(op)];
    var outcome := env.client(now);
    if outcome.Fault? && outcome.error.Retryable() && attempts > 1 then Retry(env, op, now, attempts - 1)
    else Answer(now, outcome)
  }

  /** An answer of the wrong length is a protocol error. */
  function OfLength(answer: Answer, count: nat): Answer {
    if answer.outcome.Ok? && |answer.outcome.values| != count then answer.(outcome := Fault(ProtocolError))
    else answer
  }

  function ReadOne(env: Environment, s: Settings, slave: int, address: int, log: History): Answer
    requires s.Valid()
  {
    OfLength(Retry(env, Read(slave, address, 1), log, s.operationAttempts), 1)
  }

  datatype ProfileResult =
    | NotNeeded
    | GotProfile(profile: DeviceProfile)
    | Unusable
    | ProfileFault(error: TransportError)
    | ProfileAbandoned
  {
    function Device(): Option<DeviceProfile> {
      if GotProfile? then Some(profile) else None
    }
  }

  datatype ProfileAnswer = ProfileAnswer(log: History, result: ProfileResult)

  function ProfileProblem(outcome: Outcome): ProfileResult
    requires !outcome.Ok?
  {
    match outcome
    case Fault(error) => ProfileFault(error)
    case BadValue => Unusable
    case Abandoned => ProfileAbandoned
  }

  function ReadProfile(env: Environment, s: Settings, slave: int, log: History): ProfileAnswer
    requires s.Valid()
  {
    var capabilities := ReadOne(env, s, slave, CAPABILITIES, log);
    if !capabilities.outcome.Ok? then ProfileAnswer(capabilities.log, ProfileProblem(capabilities.outcome))
    else
      var limits := OfLength(Retry(env, Read(slave, MODE_LIMITATION, 3), capabilities.log, s.operationAttempts), 3);
      if !limits.outcome.Ok? then ProfileAnswer(limits.log, ProfileProblem(limits.outcome))
      else
        var v := limits.outcome.values;
        var profile := BuildDeviceProfile(v[0], v[1], v[2]);
        ProfileAnswer(limits.log, if profile.Some? then GotProfile(profile.value) else Unusable)
  }

  datatype SweepResult = Observed(values: map<int, int>) | SweepFault(error: TransportError) | SweepEscaped

  datatype SweepAnswer = SweepAnswer(log: History, result: SweepResult)

  function Sweep(env: Environment, s: Settings, slave: int, expectations: seq<Expectation>,
                 observed: map<int, int>, log: History): SweepAnswer
    requires s.Valid()
  {
    if expectations == [] then SweepAnswer(log, Observed(observed))
    else
      var address := expectations[0].address;
      var a := ReadOne(env, s, slave, address, log);
      match a.outcome
      case Ok(values) => Sweep(env, s, slave, expectations[1..], observed[address := values[0]], a.log)
      case Fault(error) => SweepAnswer(a.log, SweepFault(error))
      case _ => SweepAnswer(a.log, SweepEscaped)
  }

  function Readback(env: Environment, s: Settings, plan: Plan, log: History, attempts: nat): SweepAnswer
    requires s.Valid() && 1 <= attempts
    decreases attempts
  {
    var a := Sweep(env, s, plan.slave, plan.expectations, map[], log);
    if !a.result.Observed? then a
    else
      var marked := a.log + [Swept(plan, a.result.values)];
      if CompareReadback(plan, a.result.values) == [] || attempts == 1 then SweepAnswer(marked, a.result)
      else Readback(env, s, plan, marked, attempts - 1)
  }

  datatype WriteAnswer = WriteAnswer(log: History, done: nat, outcome: Outcome)

  function WriteAll(env: Environment, s: Settings, slave: int, writes: seq<RegisterWrite>, done: nat, log: History): (r: WriteAnswer)
    requires s.Valid() && done <= |writes|
    ensures done <= r.done <= |writes|
    ensures r.outcome.Ok? ==> r.done == |writes|
    decreases |writes| - done
  {
    if done == |writes| then WriteAnswer(log, done, Ok([]))
    else
      var a := Retry(env, Write(slave, writes[done].address, writes[done].value), log, s.operationAttempts);
      if a.outcome.Ok? then WriteAll(env, s, slave, writes, done + 1, a.log)
      else WriteAnswer(a.log, done, a.outcome)
  }

  // Cooldown

  function Min(a: int, b: int): int {
    if a <= b then a else b
  }

  function CooldownDelay(s: Settings, failures: nat): int
    requires 1 <= failures
  {
    Min(s.retryBase * Pow2(Min(failures - 1, 16)), s.retryMax)
  }

  function FailureOf(failures: Failures, slave: int): Failure {
    if slave in failures then failures[slave] else Failure(0, None)
  }

  predicate CoolingDown(failures: Failures, slave: int, now: int) {
    var f := FailureOf(failures, slave);
    f.retryAfter.Some? && f.retryAfter.value > now
  }

  function RecordFailure(env: Environment, s: Settings, slave: int, st: Local): Local {
    var count := FailureOf(st.failures, slave).count + 1;
    st.(failures := st.failures[slave := Failure(count, Some(env.clock(st.log) + CooldownDelay(s, count)))])
  }

  function RecordSuccess(slave: int, st: Local): Local {
    st.(failures := st.failures - {slave})
  }

  // Results

  function ResultOf(intent: Intent, status: Status, message: Message, writes: seq<RegisterWrite>,
                    mismatches: seq<Mismatch>): ExecutionResult {
    ExecutionResult(intent.roomKey, intent.version, status, message, writes, mismatches, intent.correlationId)
  }

  function Plainly(intent: Intent, status: Status, message: Message): ExecutionResult {
    ResultOf(intent, status, message, [], [])
  }

  function FailureStatus(error: TransportError): Status {
    match error
    case DeviceOffline => Offline
    case TransportTimeout => TimedOut
    case ModbusException => ModbusFailed
    case _ => Failed
  }

  function WithAttempt(st: Local, attempt: Attempt): Local {
    st.(room := st.room.(attempt := Some(attempt)))
  }

  function MarkTerminal(st: Local, result: ExecutionResult, applied: bool): Reply
    requires st.room.attempt.Some?
  {
    var attempt := st.room.attempt.value.(phase := Terminal, cached := Some(result));
    var room := st.room.(attempt := Some(attempt),
                         terminal := Some(attempt.version),
                         applied := if applied then Some(attempt.version) else st.room.applied);
    Reply(st.(room := room), Some(result))
  }

  // Verification

  datatype Verification =
    | Verdict(st: Local, result: ExecutionResult)
    | Differs(st: Local)
    | VerifyEscaped(st: Local)

  function Verify(env: Environment, s: Settings, intent: Intent, st: Local, terminalOnMismatch: bool): Verification
    requires s.Valid() && st.room.attempt.Some? && st.room.attempt.value.plan.Some?
  {
    var attempt := st.room.attempt.value;
    var plan := attempt.plan.value;
    var a := Readback(env, s, plan, st.log, s.readbackAttempts);
    var now := st.(log := a.log);
    match a.result
    case SweepEscaped => VerifyEscaped(now)
    case SweepFault(error) =>
      var result := ResultOf(intent, AppliedUnconfirmed, VerificationFailed(error), attempt.completed, []);
      if error.Retryable() then Verdict(now, result)
      else Verdict(MarkTerminal(now, result, false).st, result)
    case Observed(values) =>
      var mismatches := CompareReadback(plan, values);
      if mismatches != [] && !terminalOnMismatch then Differs(now)
      else
        var result := if mismatches == [] then ResultOf(intent, Applied, NoMessage, attempt.completed, [])
                      else ResultOf(intent, ReadbackMismatch, StateDiffers, attempt.completed, mismatches);
        Verdict(MarkTerminal(now, result, mismatches == []).st, result)
  }

  // Execution

  predicate WindowClosed(intent: Intent, s: Settings, now: int) {
    intent.expiresAt.Some? && intent.expiresAt.value <= now - s.skew
  }

  predicate WindowNotOpen(intent: Intent, s: Settings, now: int) {
    intent.effectiveFrom > now + s.skew
  }

  function Reset(st: Local): Local
    requires st.room.attempt.Some?
  {
    WithAttempt(st, st.room.attempt.value.(phase := Retryable, plan := None, completed := []))
  }

  function Execute(env: Environment, s: Settings, intent: Intent, slave: int, st: Local): Reply
    requires s.Valid() && st.room.attempt.Some?
  {
    var reset := Reset(st);
    var now := env.clock(reset.log);
    if WindowClosed(intent, s, now) then
      MarkTerminal(reset, Plainly(intent, Expired, WindowExpired), false)
    else if WindowNotOpen(intent, s, now) then
      Reply(reset, Some(Plainly(intent, NotYetEffective, WindowInFuture)))
    else if CoolingDown(reset.failures, slave, now) then
      Reply(reset, Some(Plainly(intent, Offline, InCooldown)))
    else
      Prepare(env, s, intent, slave, reset)
  }

  function ProfileFor(env: Environment, s: Settings, intent: Intent, slave: int, log: History): ProfileAnswer
    requires s.Valid()
  {
    if intent.hvac.enabled && !intent.hvac.mode.HvacOff? then ReadProfile(env, s, slave, log)
    else ProfileAnswer(log, NotNeeded)
  }

  function Prepare(env: Environment, s: Settings, intent: Intent, slave: int, st: Local): Reply
    requires s.Valid() && st.room.attempt.Some?
  {
    var p := ProfileFor(env, s, intent, slave, st.log);
    AfterProfile(env, s, intent, slave, st.(log := p.log), p.result)
  }

  function AfterProfile(env: Environment, s: Settings, intent: Intent, slave: int, st: Local, profile: ProfileResult): Reply
    requires s.Valid() && st.room.attempt.Some?
  {
    match profile
    case ProfileAbandoned => Reply(st, None)
    case Unusable => MarkTerminal(st, Plainly(intent, Rejected, NotPlannable), false)
    case ProfileFault(error) =>
      var result := Plainly(intent, FailureStatus(error), TransportFailed(error));
      if error.Retryable() then Reply(RecordFailure(env, s, slave, st), Some(result))
      else MarkTerminal(st, result, false)
    case _ =>
      var planning := PlanOf(intent, slave, profile.Device());
      if planning.Refused? then MarkTerminal(st, Plainly(intent, Rejected, NotPlannable), false)
      else WriteOut(env, s, intent, slave, planning.plan, st)
  }

  /** The attempt at the start of its write phase. */
  function BeginWriting(st: Local, plan: Plan): Local
    requires st.room.attempt.Some?
  {
    WithAttempt(st, st.room.attempt.value.(phase := Writing, plan := Some(plan))).(log := st.log + [WritePhase(plan)])
  }

  function WriteOut(env: Environment, s: Settings, intent: Intent, slave: int, plan: Plan, st: Local): Reply
    requires s.Valid() && st.room.attempt.Some?
  {
    var started := BeginWriting(st, plan);
    var w := WriteAll(env, s, slave, plan.writes, 0, started.log);
    FinishWriting(env, s, intent, slave, AfterWrites(started, plan, w), w.outcome)
  }

  /** The attempt when the write loop ends, for whatever reason. */
  function AfterWrites(st: Local, plan: Plan, w: WriteAnswer): (r: Local)
    requires st.room.attempt.Some? && w.done <= |plan.writes|
    ensures r.room.attempt.Some? && r.room.attempt.value.plan == st.room.attempt.value.plan
  {
    WithAttempt(st, st.room.attempt.value.(completed := plan.writes[..w.done])).(log := w.log)
  }

  function FinishWriting(env: Environment, s: Settings, intent: Intent, slave: int, st: Local, outcome: Outcome): Reply
    requires s.Valid() && st.room.attempt.Some? && st.room.attempt.value.plan.Some?
  {
    match outcome
    case Ok(_) => ConfirmFresh(env, s, intent, slave, st)
    case Fault(error) =>
      var result := ResultOf(intent, FailureStatus(error), TransportFailed(error), st.room.attempt.value.completed, []);
      if error.Retryable() then
        var pending := WithAttempt(st, st.room.attempt.value.(phase := VerificationPending));
        Reply(RecordFailure(env, s, slave, pending), Some(result))
      else MarkTerminal(st, result, false)
    case _ => Reply(st, None)
  }

  function ConfirmFresh(env: Environment, s: Settings, intent: Intent, slave: int, st: Local): Reply
    requires s.Valid() && st.room.attempt.Some? && st.room.attempt.value.plan.Some?
  {
    var pending := WithAttempt(st, st.room.attempt.value.(phase := VerificationPending));
    var v := Verify(env, s, intent, pending, true);
    if v.Verdict? then
      if v.result.status.Applied? || v.result.status.ReadbackMismatch? then Reply(RecordSuccess(slave, v.st), Some(v.result))
      else if v.result.status.AppliedUnconfirmed? then Reply(RecordFailure(env, s, slave, v.st), Some(v.result))
      else Reply(v.st, Some(v.result))
    else Reply(v.st, None)
  }

  function Resume(env: Environment, s: Settings, intent: Intent, slave: int, st: Local): Reply
    requires s.Valid() && st.room.attempt.Some?
  {
    if CoolingDown(st.failures, slave, env.clock(st.log)) then
      Reply(st, Some(Plainly(intent, Offline, InCooldown)))
    else if st.room.attempt.value.plan.None? then
      Execute(env, s, intent, slave, st)
    else
      AfterVerification(env, s, intent, slave, Verify(env, s, intent, st, false))
  }

  function AfterVerification(env: Environment, s: Settings, intent: Intent, slave: int, v: Verification): Reply
    requires s.Valid() && v.st.room.attempt.Some?
  {
    match v
    case Verdict(now, result) =>
      if result.status.Applied? then Reply(RecordSuccess(slave, now), Some(result))
      else if result.status.AppliedUnconfirmed? then Reply(RecordFailure(env, s, slave, now), Some(result))
      else Reply(now, Some(result))
    case Differs(now) => Execute(env, s, intent, slave, now)
    case VerifyEscaped(now) => Reply(now, None)
  }

  // Delivery of an intent

  function NewAttempt(intent: Intent): Attempt {
    Attempt(intent.version, intent.StablePayload(), Retryable, None, [], None)
  }

  /** The state in which the source raises its RuntimeError. */
  predicate AttemptMissing(room: RoomState, intent: Intent) {
    && room.seen == Some(intent.version)
    && (room.attempt.None? || room.attempt.value.version != intent.version)
  }

  /** The state in which the source's assertion on the cached result fails. */
  predicate ResultMissing(room: RoomState) {
    room.attempt.Some? && room.attempt.value.phase.Terminal? && room.attempt.value.cached.None?
  }

  /** A delivery to a room that has a slave. */
  function ApplyToRoom(env: Environment, s: Settings, intent: Intent, slave: int, st: Local): Reply
    requires s.Valid()
  {
    if st.room.seen.Some? && intent.version < st.room.seen.value then
      Reply(st, Some(Plainly(intent, Stale, OlderThanSeen)))
    else if st.room.seen.None? || intent.version > st.room.seen.value then
      var room := st.room.(seen := Some(intent.version), attempt := Some(NewAttempt(intent)));
      Execute(env, s, intent, slave, st.(room := room))
    else if AttemptMissing(st.room, intent) then
      Reply(st, None)
    else
      var attempt := st.room.attempt.value;
      if attempt.fingerprint != intent.StablePayload() then
        Reply(st, Some(Plainly(intent, Rejected, PayloadClash)))
      else if attempt.phase.Terminal? then
        if ResultMissing(st.room) then Reply(st, None)
        else Reply(st, Some(attempt.cached.value.(correlationId := intent.correlationId)))
      else if attempt.phase.Writing? || attempt.phase.VerificationPending? then
        Resume(env, s, intent, slave, st)
      else
        Execute(env, s, intent, slave, st)
  }

  datatype Delivery = Delivery(st: WorkerState, result: Option<ExecutionResult>)

  function RoomOf(ws: WorkerState, key: string): RoomState {
    if key in ws.rooms then ws.rooms[key] else FreshRoom
  }

  /** One call of the worker with a delivered intent. */
  function Apply(env: Environment, s: Settings, ws: WorkerState, intent: Intent): Delivery
    requires s.Valid()
  {
    var log := ws.log + [Delivered(intent)];
    if intent.roomKey !in s.slaves then
      Delivery(ws.(log := log), Some(Plainly(intent, Skipped, NoSlaveConfigured)))
    else
      var st := Local(RoomOf(ws, intent.roomKey), ws.failures, log);
      var reply := ApplyToRoom(env, s, intent, s.slaves[intent.roomKey], st);
      Delivery(WorkerState(ws.rooms[intent.roomKey := reply.st.room], reply.st.failures, reply.st.log), reply.result)
  }

  const IdleWorker := WorkerState(map[], map[], [])

  /** A run: the intents are delivered one after the other; any call may be abandoned at any bus operation. */
  function Run(env: Environment, s: Settings, ws: WorkerState, intents: seq<Intent>): WorkerState
    requires s.Valid()
  {
    if intents == [] then ws
    else Apply(env, s, Run(env, s, ws, intents[..|intents| - 1]), intents[|intents| - 1]).st
  }
}
