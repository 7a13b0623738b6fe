/**
 The entrance worker as the object it is (app/g301_adapter/worker.py), proved against the protocol.
 */
module Worker {
  import opened Domain
  import opened Registers
  import opened Planner
  import opened Protocol
  import opened Registry

  class IntentAttempt {
    const version: int
    const fingerprint: Intent
    var phase: Phase
    var plan: Option<Plan>
    var completedWrites: seq<RegisterWrite>
    var cachedResult: Option<ExecutionResult>

    function View(): Attempt
      reads this
    {
      Attempt(version, fingerprint, phase, plan, completedWrites, cachedResult)
    }

    constructor (intent: Intent)
      ensures View() == NewAttempt(intent)
    {
      version := intent.version;
      fingerprint := intent.StablePayload();
      phase := Retryable;
      plan := None;
      completedWrites := [];
      cachedResult := None;
    }
  }

  class RoomIntentState {
    var lastSeenVersion: Option<int>
    var lastTerminalVersion: Option<int>
    var lastAppliedVersion: Option<int>
    var currentAttempt: IntentAttempt?

    function View(): RoomState
      reads this, currentAttempt
    {
      RoomState(lastSeenVersion, lastTerminalVersion, lastAppliedVersion,
                if currentAttempt == null then None else Some(currentAttempt.View()))
    }

    constructor ()
      ensures View() == FreshRoom && currentAttempt == null
    {
      lastSeenVersion := None;
      lastTerminalVersion := None;
      lastAppliedVersion := None;
      currentAttempt := null;
    }
  }

  /** How a verification ended: with a result, with a mismatch that is not final, or by an exception. */
  datatype Verdict = Concluded(result: ExecutionResult) | MismatchFound | LeftByException

  class EntranceWorker {
    const settings: Settings
    const env: Environment
    var intentStates: map<string, RoomIntentState>
    var slaveFailures: Failures
    var log: History

    ghost function Attempts(): set<object>
      reads this, intentStates.Values
    {
      set st | st in intentStates.Values && st.currentAttempt != null :: st.currentAttempt
    }

    /** The rooms' states are separate objects with separate attempts. */
    ghost predicate Valid()
      reads this, intentStates.Values, Attempts()
    {
      && settings.Valid()
      && (forall a, b :: a in intentStates && b in intentStates && a != b ==>
            && intentStates[a] != intentStates[b]
            && (intentStates[a].currentAttempt != null ==> intentStates[a].currentAttempt != intentStates[b].currentAttempt))
    }

    ghost function View(): WorkerState
      reads this, intentStates.Values, Attempts()
    {
      WorkerState(map key | key in intentStates :: intentStates[key].View(), slaveFailures, log)
    }

    ghost function LocalView(state: RoomIntentState): Local
      reads this, state, state.currentAttempt
    {
      Local(state.View(), slaveFailures, log)
    }

    constructor (settings: Settings, env: Environment)
      requires settings.Valid()
      ensures Valid() && View() == IdleWorker
      ensures this.settings == settings && this.env == env
    {
      this.settings := settings;
      this.env := env;
      this.intentStates := map[];
      this.slaveFailures := map[];
      this.log := [];
    }

    // Bus operations

    method Perform(op: Operation) returns (outcome: Outcome)
      modifies this`log
      ensures log == old(log) + [Bus(op)] && outcome == env.client(log)
    {
      log := log + [Bus(op)];
      outcome := env.client(log);
    }

    method WithRetry(op: Operation) returns (outcome: Outcome)
      requires settings.Valid()
      modifies this`log
      ensures Answer(log, outcome) == Retry(env, op, old(log), settings.operationAttempts)
    {
      var lastError := OtherTransportError;
      for attempt := 0 to settings.operationAttempts
        invariant attempt < settings.operationAttempts ==>
                    Retry(env, op, old(log), settings.operationAttempts) == Retry(env, op, log, settings.operationAttempts - attempt)
        invariant attempt == settings.operationAttempts ==>
                    Retry(env, op, old(log), settings.operationAttempts) == Answer(log, Fault(lastError))
      {
        outcome := Perform(op);
        if !outcome.Fault? {
          return;
        }
        lastError := outcome.error;
        if !lastError.Retryable() {
          return;
        }
      }
      return Fault(lastError);
    }

    method ReadRegister(slave: int, address: int) returns (outcome: Outcome)
      requires settings.Valid()
      modifies this`log
      ensures Answer(log, outcome) == ReadOne(env, settings, slave, address, old(log))
    {
      outcome := WithRetry(Read(slave, address, 1));
      if outcome.Ok? && |outcome.values| != 1 {
        outcome := Fault(ProtocolError);
      }
    }

    method ReadDeviceProfile(slave: int) returns (result: ProfileResult)
      requires settings.Valid()
      modifies this`log
      ensures ProfileAnswer(log, result) == ReadProfile(env, settings, slave, old(log))
    {
      var capabilities := ReadRegister(slave, CAPABILITIES);
      if !capabilities.Ok? {
        return ProfileProblem(capabilities);
      }
      var limits := WithRetry(Read(slave, MODE_LIMITATION, 3));
      if limits.Ok? && |limits.values| != 3 {
        limits := Fault(ProtocolError);
      }
      if !limits.Ok? {
        return ProfileProblem(limits);
      }
      var profile := BuildDeviceProfile(limits.values[0], limits.values[1], limits.values[2]);
      return if profile.Some? then GotProfile(profile.value) else Unusable;
    }

    method SweepRegisters(plan: Plan) returns (result: SweepResult)
      requires settings.Valid()
      modifies this`log
      ensures SweepAnswer(log, result) == Sweep(env, settings, plan.slave, plan.expectations, map[], old(log))
    {
      var observed: map<int, int> := map[];
      for i := 0 to |plan.expectations|
        invariant Sweep(env, settings, plan.slave, plan.expectations, map[], old(log))
               == Sweep(env, settings, plan.slave, plan.expectations[i..], observed, log)
      {
        var address := plan.expectations[i].address;
        assert plan.expectations[i..][1..] == plan.expectations[i + 1..];
        var outcome := ReadRegister(plan.slave, address);
        match outcome {
          case Ok(values) => observed := observed[address := values[0]];
          case Fault(error) => return SweepFault(error);
          case _ => return SweepEscaped;
        }
      }
      return Observed(observed);
    }

    method ReadbackPlan(plan: Plan) returns (result: SweepResult)
      requires settings.Valid()
      modifies this`log
      ensures SweepAnswer(log, result) == Readback(env, settings, plan, old(log), settings.readbackAttempts)
    {
      result := Observed(map[]);
      for attempt := 0 to settings.readbackAttempts
        invariant attempt < settings.readbackAttempts ==>
                    Readback(env, settings, plan, log, settings.readbackAttempts - attempt) == Readback(env, settings, plan, old(log), settings.readbackAttempts)
        invariant attempt == settings.readbackAttempts ==>
                    Readback(env, settings, plan, old(log), settings.readbackAttempts) == SweepAnswer(log, result)
      {
        result := SweepRegisters(plan);
        if !result.Observed? {
          return;
        }
        log := log + [Swept(plan, result.values)];
        if CompareReadback(plan, result.values) == [] {
          return;
        }
      }
    }

    // Failures

    method RecordSlaveFailure(slave: int)
      modifies this`slaveFailures
      ensures forall room :: Local(room, slaveFailures, log) == RecordFailure(env, settings, slave, Local(room, old(slaveFailures), log))
    {
      var failures := FailureOf(slaveFailures, slave).count + 1;
      var delay := CooldownDelay(settings, failures);
      slaveFailures := slaveFailures[slave := Failure(failures, Some(env.clock(log) + delay))];
    }

    method RecordSlaveSuccess(slave: int)
      modifies this`slaveFailures
      ensures forall room :: Local(room, slaveFailures, log) == RecordSuccess(slave, Local(room, old(slaveFailures), log))
    {
      slaveFailures := slaveFailures - {slave};
    }

    // The attempt

    method SetTerminal(state: RoomIntentState, attempt: IntentAttempt, result: ExecutionResult, applied: bool)
      requires state.currentAttempt == attempt
      modifies state, attempt
      ensures state.currentAttempt == attempt
      ensures LocalView(state) == MarkTerminal(old(LocalView(state)), result, applied).st
    {
      attempt.phase := Terminal;
      attempt.cachedResult := Some(result);
      state.lastTerminalVersion := Some(attempt.version);
      if applied {
        state.lastAppliedVersion := Some(attempt.version);
      }
    }

    method VerifyAttempt(intent: Intent, state: RoomIntentState, attempt: IntentAttempt, terminalOnMismatch: bool)
      returns (verdict: Verdict)
      requires settings.Valid() && state.currentAttempt == attempt && attempt.plan.Some?
      modifies this`log, state, attempt
      ensures state.currentAttempt == attempt
      ensures var v := Verify(env, settings, intent, old(LocalView(state)), terminalOnMismatch);
              && LocalView(state) == v.st
              && verdict == (if v.Verdict? then Concluded(v.result) else if v.Differs? then MismatchFound else LeftByException)
    {
      var plan := attempt.plan.value;
      var observed := ReadbackPlan(plan);
      match observed {
        case SweepEscaped =>
          return LeftByException;
        case SweepFault(error) =>
          var result := ResultOf(intent, AppliedUnconfirmed, VerificationFailed(error), attempt.completedWrites, []);
          if !error.Retryable() {
            SetTerminal(state, attempt, result, false);
          }
          return Concluded(result);
        case Observed(values) =>
          var mismatches := CompareReadback(plan, values);
          if mismatches != [] && !terminalOnMismatch {
            return MismatchFound;
          }
          var result := if mismatches == [] then ResultOf(intent, Applied, NoMessage, attempt.completedWrites, [])
                        else ResultOf(intent, ReadbackMismatch, StateDiffers, attempt.completedWrites, mismatches);
          SetTerminal(state, attempt, result, mismatches == []);
          return Concluded(result);
      }
    }

    method ExecuteIntent(intent: Intent, slave: int, state: RoomIntentState, attempt: IntentAttempt)
      returns (result: Option<ExecutionResult>)
      requires settings.Valid() && state.currentAttempt == attempt
      modifies this`log, this`slaveFailures, state, attempt
      ensures state.currentAttempt == attempt
      ensures Reply(LocalView(state), result) == Execute(env, settings, intent, slave, old(LocalView(state)))
    {
      attempt.phase := Retryable;
      attempt.plan := None;
      attempt.completedWrites := [];
      var now := env.clock(log);
      if WindowClosed(intent, settings, now) {
        var expired := Plainly(intent, Expired, WindowExpired);
        SetTerminal(state, attempt, expired, false);
        return Some(expired);
      }
      if WindowNotOpen(intent, settings, now) {
        return Some(Plainly(intent, NotYetEffective, WindowInFuture));
      }
      if CoolingDown(slaveFailures, slave, now) {
        return Some(Plainly(intent, Offline, InCooldown));
      }
      result := PrepareAndWrite(intent, slave, state, attempt);
    }

    method PrepareAndWrite(intent: Intent, slave: int, state: RoomIntentState, attempt: IntentAttempt)
      returns (result: Option<ExecutionResult>)
      requires settings.Valid() && state.currentAttempt == attempt && attempt.completedWrites == []
      modifies this`log, this`slaveFailures, state, attempt
      ensures state.currentAttempt == attempt
      ensures Reply(LocalView(state), result) == Prepare(env, settings, intent, slave, old(LocalView(state)))
    {
      hide ReadProfile, PlanOf, WriteOut;
      var profile := NotNeeded;
      if intent.hvac.enabled && intent.hvac.mode != HvacOff {
        profile := ReadDeviceProfile(slave);
      }
      match profile {
        case ProfileAbandoned =>
          return None;
        case Unusable =>
          var rejected := Plainly(intent, Rejected, NotPlannable);
          SetTerminal(state, attempt, rejected, false);
          return Some(rejected);
        case ProfileFault(error) =>
          var failed := Plainly(intent, FailureStatus(error), TransportFailed(error));
          if error.Retryable() {
            RecordSlaveFailure(slave);
          } else {
            SetTerminal(state, attempt, failed, false);
          }
          return Some(failed);
        case _ =>
          var planning := PlanRoomIntent(intent, slave, profile.Device());
          if planning.Refused? {
            var rejected := Plainly(intent, Rejected, NotPlannable);
            SetTerminal(state, attempt, rejected, false);
            return Some(rejected);
          }
          result := WritePlan(intent, slave, planning.plan, state, attempt);
      }
    }

    method WriteRegisters(slave: int, plan: Plan, attempt: IntentAttempt) returns (outcome: Outcome)
      requires settings.Valid() && attempt.completedWrites == []
      modifies this`log, attempt`completedWrites
      ensures var w := WriteAll(env, settings, slave, plan.writes, 0, old(log));
              log == w.log && outcome == w.outcome && attempt.completedWrites == plan.writes[..w.done]
    {
      for i := 0 to |plan.writes|
        invariant attempt.completedWrites == plan.writes[..i]
        invariant WriteAll(env, settings, slave, plan.writes, 0, old(log)) == WriteAll(env, settings, slave, plan.writes, i, log)
      {
        outcome := WithRetry(Write(slave, plan.writes[i].address, plan.writes[i].value));
        if !outcome.Ok? {
          return;
        }
        attempt.completedWrites := attempt.completedWrites + [plan.writes[i]];
      }
      return Ok([]);
    }

    method WritePlan(intent: Intent, slave: int, plan: Plan, state: RoomIntentState, attempt: IntentAttempt)
      returns (result: Option<ExecutionResult>)
      requires settings.Valid() && state.currentAttempt == attempt && attempt.completedWrites == []
      modifies this`log, this`slaveFailures, state, attempt
      ensures state.currentAttempt == attempt
      ensures Reply(LocalView(state), result) == WriteOut(env, settings, intent, slave, plan, old(LocalView(state)))
    {
      attempt.plan := Some(plan);
      attempt.phase := Writing;
      log := log + [WritePhase(plan)];
      assert LocalView(state) == BeginWriting(old(LocalView(state)), plan);
      var outcome := WriteRegisters(slave, plan, attempt);
      match outcome {
        case Ok(_) =>
          result := ConfirmWrites(intent, slave, state, attempt);
        case Fault(error) =>
          var failed := ResultOf(intent, FailureStatus(error), TransportFailed(error), attempt.completedWrites, []);
          if error.Retryable() {
            attempt.phase := VerificationPending;
            RecordSlaveFailure(slave);
          } else {
            SetTerminal(state, attempt, failed, false);
          }
          return Some(failed);
        case _ =>
          return None;
      }
    }

    method ConfirmWrites(intent: Intent, slave: int, state: RoomIntentState, attempt: IntentAttempt)
      returns (result: Option<ExecutionResult>)
      requires settings.Valid() && state.currentAttempt == attempt && attempt.plan.Some?
      modifies this`log, this`slaveFailures, state, attempt
      ensures state.currentAttempt == attempt
      ensures Reply(LocalView(state), result) == ConfirmFresh(env, settings, intent, slave, old(LocalView(state)))
    {
      attempt.phase := VerificationPending;
      var verdict := VerifyAttempt(intent, state, attempt, true);
      if !verdict.Concluded? {
        return None;
      }
      if verdict.result.status in {Applied, ReadbackMismatch} {
        RecordSlaveSuccess(slave);
      } else if verdict.result.status == AppliedUnconfirmed {
        RecordSlaveFailure(slave);
      }
      return Some(verdict.result);
    }

    method ResumeVerification(intent: Intent, slave: int, state: RoomIntentState, attempt: IntentAttempt)
      returns (result: Option<ExecutionResult>)
      requires settings.Valid() && state.currentAttempt == attempt
      modifies this`log, this`slaveFailures, state, attempt
      ensures state.currentAttempt == attempt
      ensures Reply(LocalView(state), result) == Resume(env, settings, intent, slave, old(LocalView(state)))
    {
      if CoolingDown(slaveFailures, slave, env.clock(log)) {
        return Some(Plainly(intent, Offline, InCooldown));
      }
      if attempt.plan.None? {
        attempt.phase := Retryable;
        result := ExecuteIntent(intent, slave, state, attempt);
        return;
      }
      var verdict := VerifyAttempt(intent, state, attempt, false);
      match verdict {
        case LeftByException =>
          return None;
        case Concluded(concluded) =>
          if concluded.status == Applied {
            RecordSlaveSuccess(slave);
          } else if concluded.status == AppliedUnconfirmed {
            RecordSlaveFailure(slave);
          }
          return Some(concluded);
        case MismatchFound =>
          attempt.phase := Retryable;
          result := ExecuteIntent(intent, slave, state, attempt);
      }
    }

    // Delivery

    method ApplyToState(intent: Intent, slave: int, state: RoomIntentState) returns (result: Option<ExecutionResult>)
      requires settings.Valid()
      modifies this`log, this`slaveFailures, state, state.currentAttempt
      ensures state.currentAttempt == old(state.currentAttempt) || fresh(state.currentAttempt)
      ensures Reply(LocalView(state), result) == ApplyToRoom(env, settings, intent, slave, old(LocalView(state)))
    {
      if state.lastSeenVersion.Some? && intent.version < state.lastSeenVersion.value {
        return Some(Plainly(intent, Stale, OlderThanSeen));
      }
      if state.lastSeenVersion.None? || intent.version > state.lastSeenVersion.value {
        state.lastSeenVersion := Some(intent.version);
        state.currentAttempt := new IntentAttempt(intent);
      } else {
        var attempt := state.currentAttempt;
        if attempt == null || attempt.version != intent.version {
          return None;
        }
        if attempt.fingerprint != intent.StablePayload() {
          return Some(Plainly(intent, Rejected, PayloadClash));
        }
        if attempt.phase == Terminal {
          if attempt.cachedResult.None? {
            return None;
          }
          return Some(attempt.cachedResult.value.(correlationId := intent.correlationId));
        }
        if attempt.phase in {Writing, VerificationPending} {
          result := ResumeVerification(intent, slave, state, attempt);
          return;
        }
      }
      result := ExecuteIntent(intent, slave, state, state.currentAttempt);
    }

    method NoteDelivery(intent: Intent)
      requires Valid()
      modifies this`log
      ensures Valid() && Attempts() == old(Attempts())
      ensures View() == old(View()).(log := old(View()).log + [Delivered(intent)])
    {
      log := log + [Delivered(intent)];
    }

    /** The room's entry, created on the first delivery for it. */
    method EnsureState(key: string)
      requires Valid()
      modifies this`intentStates
      ensures Valid() && key in intentStates && fresh(intentStates.Values - old(intentStates.Values))
      ensures fresh(Attempts() - old(Attempts()))
      ensures View() == old(View()).(rooms := old(View()).rooms[key := RoomOf(old(View()), key)])
    {
      if key !in intentStates {
        var created := new RoomIntentState();
        intentStates := intentStates[key := created];
      }
      assert View().rooms == old(View()).rooms[key := RoomOf(old(View()), key)];
    }

    /** A delivery to a room that has a slave and an entry. */
    method ApplySerialized(intent: Intent) returns (result: Option<ExecutionResult>)
      requires Valid() && intent.roomKey in settings.slaves && intent.roomKey in intentStates
      modifies this`log, this`slaveFailures, intentStates.Values, Attempts()
      ensures Valid()
      ensures var reply := ApplyToRoom(env, settings, intent, settings.slaves[intent.roomKey],
                                       Local(RoomOf(old(View()), intent.roomKey), old(View()).failures, old(View()).log));
              && View() == WorkerState(old(View()).rooms[intent.roomKey := reply.st.room], reply.st.failures, reply.st.log)
              && result == reply.result
    {
      hide ApplyToRoom;
      var state := intentStates[intent.roomKey];
      result := ApplyToState(intent, settings.slaves[intent.roomKey], state);
      forall key | key in intentStates && key != intent.roomKey
        ensures intentStates[key].View() == old(intentStates[key].View())
        ensures intentStates[key].currentAttempt == old(intentStates[key].currentAttempt)
      {
      }
      assert View().rooms == old(View()).rooms[intent.roomKey := state.View()];
    }

    method ApplyIntent(intent: Intent) returns (result: Option<ExecutionResult>)
      requires Valid()
      modifies this, intentStates.Values, Attempts()
      ensures Valid()
      ensures Delivery(View(), result) == Apply(env, settings, old(View()), intent)
    {
      hide ApplyToRoom, Valid, View, Attempts;
      NoteDelivery(intent);
      if intent.roomKey !in settings.slaves {
        return Some(Plainly(intent, Skipped, NoSlaveConfigured));
      }
      EnsureState(intent.roomKey);
      result := ApplySerialized(intent);
    }
  }

  /** The checks of the worker's constructor; none when the source raises ValueError. */
  method StartWorker(registry: RoomRegistry, entranceKey: string, operationAttempts: nat, readbackAttempts: nat,
                     retryBase: int, retryMax: int, skew: int, env: Environment) returns (worker: EntranceWorker?)
    requires registry.Valid()
    ensures worker != null <==>
            && 1 <= operationAttempts && 1 <= readbackAttempts && 0 < retryBase <= retryMax && 0 <= skew
            && exists e :: e in registry.entrances && e.key == entranceKey
                 && (forall f :: f in registry.entrances && f.key == entranceKey ==> f.enabled)
    ensures worker != null ==>
            && fresh(worker) && worker.Valid() && worker.View() == IdleWorker && worker.env == env
            && worker.settings == Settings(operationAttempts, readbackAttempts, retryBase, retryMax, skew,
                                           SlaveAddresses(registry.rooms, entranceKey))
  {
    var settings := Settings(operationAttempts, readbackAttempts, retryBase, retryMax, skew,
                             SlaveAddresses(registry.rooms, entranceKey));
    if !settings.Valid() {
      return null;
    }
    for i := 0 to |registry.entrances|
      invariant forall k :: 0 <= k < i ==> registry.entrances[k].key != entranceKey
    {
      var entrance := registry.entrances[i];
      if entrance.key == entranceKey {
        if !entrance.enabled {
          return null;
        }
        worker := new EntranceWorker(settings, env);
        return;
      }
    }
    return null;
  }
}
