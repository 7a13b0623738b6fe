/**
 Planning the register writes of an intent and judging a readback (app/g301_adapter/planner.py).
 */
module Planner {
  import opened Domain
  import opened Registers

  datatype RegisterWrite = RegisterWrite(address: int, value: int)
  datatype Expectation = Expectation(address: int, expected: int)
  datatype Mismatch = Mismatch(address: int, expected: int, observed: Option<int>)

  datatype Plan = Plan(
    roomKey: string,
    slave: int,
    version: int,
    correlationId: int,
    writes: seq<RegisterWrite>,
    expectations: seq<Expectation>)

  datatype PlanError =
    | BadSlaveAddress
    | UnsupportedMode
    | NoDeviceProfile
    | ModeProhibited
    | NoTarget
    | OutsideDeviceLimits
    | EncoderRange

  datatype Planning = Planned(plan: Plan) | Refused(error: PlanError)

  function ReadbackExpectation(write: RegisterWrite): Expectation {
    var address := if write.address == POWER then POWER_STATUS
                   else if write.address == MODE then MODE_STATUS
                   else if write.address == FAN_SPEED then FAN_STATUS
                   else write.address;
    Expectation(address, write.value)
  }

  function Expectations(writes: seq<RegisterWrite>): (r: seq<Expectation>)
    ensures |r| == |writes|
    ensures forall i :: 0 <= i < |writes| ==> r[i] == ReadbackExpectation(writes[i])
  {
    seq(|writes|, i requires 0 <= i < |writes| => ReadbackExpectation(writes[i]))
  }

  predicate Prohibited(mode: int, limitation: ModeLimitation) {
    || (limitation.HeatProhibited? && mode in {4, 5})
    || (limitation.CoolDryProhibited? && mode in {1, 2, 5})
  }

  predicate WantsPowerOff(intent: Intent) {
    !intent.hvac.enabled || intent.hvac.mode.HvacOff?
  }

  function MakePlan(intent: Intent, slave: int, writes: seq<RegisterWrite>): Plan {
    Plan(intent.roomKey, slave, intent.version, intent.correlationId, writes, Expectations(writes))
  }

  /** The writes that switch the unit on: mode, then target, then power. */
  function PowerOnWrites(mode: int, setpoint: int): seq<RegisterWrite> {
    [RegisterWrite(MODE, mode), RegisterWrite(SET_TEMPERATURE, setpoint), RegisterWrite(POWER, 1)]
  }

  /** What planning yields, by the first obstacle the planner meets. */
  function PlanOf(intent: Intent, slave: int, profile: Option<DeviceProfile>): Planning {
    if !(1 <= slave <= 255) then Refused(BadSlaveAddress)
    else if WantsPowerOff(intent) then Planned(MakePlan(intent, slave, [RegisterWrite(POWER, 0)]))
    else
      var mode := ModeFromHvac(intent.hvac.mode).value;
      if profile.None? then Refused(NoDeviceProfile)
      else if Prohibited(mode, profile.value.limitation) then Refused(ModeProhibited)
      else if intent.hvac.target.None? then Refused(NoTarget)
      else if !(profile.value.lower as real <= intent.hvac.target.value <= profile.value.upper as real) then
        Refused(OutsideDeviceLimits)
      else
        var setpoint := EncodeSetTemperature(intent.hvac.target.value);
        if setpoint.None? then Refused(EncoderRange)
        else Planned(MakePlan(intent, slave, PowerOnWrites(mode, setpoint.value)))
  }

  /** The planner as it collects the writes one by one. */
  method PlanRoomIntent(intent: Intent, slave: int, profile: Option<DeviceProfile>) returns (r: Planning)
    ensures r == PlanOf(intent, slave, profile)
  {
    if !(1 <= slave <= 255) {
      return Refused(BadSlaveAddress);
    }
    var writes: seq<RegisterWrite> := [];
    if !intent.hvac.enabled || intent.hvac.mode == HvacOff {
      writes := writes + [RegisterWrite(POWER, 0)];
      return Planned(MakePlan(intent, slave, writes));
    }
    var mode := ModeFromHvac(intent.hvac.mode);
    if mode.None? {
      return Refused(UnsupportedMode);
    }
    if profile.None? {
      return Refused(NoDeviceProfile);
    }
    if Prohibited(mode.value, profile.value.limitation) {
      return Refused(ModeProhibited);
    }
    writes := writes + [RegisterWrite(MODE, mode.value)];
    if intent.hvac.target.None? {
      return Refused(NoTarget);
    }
    var target := intent.hvac.target.value;
    if !(profile.value.lower as real <= target <= profile.value.upper as real) {
      return Refused(OutsideDeviceLimits);
    }
    var setpoint := EncodeSetTemperature(target);
    if setpoint.None? {
      return Refused(EncoderRange);
    }
    writes := writes + [RegisterWrite(SET_TEMPERATURE, setpoint.value)];
    writes := writes + [RegisterWrite(POWER, 1)];
    assert writes == PowerOnWrites(mode.value, setpoint.value);
    return Planned(MakePlan(intent, slave, writes));
  }

  /** What every plan promises to the worker that executes it. */
  predicate SafePlan(plan: Plan) {
    && 1 <= plan.slave <= 255
    && 1 <= |plan.writes| <= 3
    && plan.expectations == Expectations(plan.writes)
    && (forall i :: 0 <= i < |plan.writes| ==> 0 <= plan.writes[i].value <= WORD_MAX)
    && plan.writes[|plan.writes| - 1].address == POWER
    && (forall i :: 0 <= i < |plan.writes| - 1 ==> plan.writes[i].address != POWER)
    && (forall i, j :: 0 <= i < j < |plan.expectations| ==> plan.expectations[i].address != plan.expectations[j].address)
  }

  /**
   A valid intent with a profile the device check accepts is planned exactly when the slave is
   addressable and the device allows its mode and target; the setpoint then lies within ten times
   the device limits, and the encoder's own range error is never reached.
   */
  lemma PlanSafety(intent: Intent, slave: int, profile: DeviceProfile)
    requires ValidHvac(intent.hvac) && profile.Valid()
    ensures var r := PlanOf(intent, slave, Some(profile));
            && r != Refused(EncoderRange)
            && r != Refused(NoTarget)
            && (r.Planned? <==>
                && 1 <= slave <= 255
                && (intent.hvac.enabled ==>
                    && !Prohibited(ModeFromHvac(intent.hvac.mode).value, profile.limitation)
                    && profile.lower as real <= intent.hvac.target.value <= profile.upper as real))
            && (r.Planned? ==> SafePlan(r.plan))
            && (r.Planned? && intent.hvac.enabled ==>
                && |r.plan.writes| == 3
                && r.plan.writes[1].address == SET_TEMPERATURE
                && 10 * profile.lower <= r.plan.writes[1].value <= 10 * profile.upper)
  {
    if intent.hvac.enabled {
      var target := intent.hvac.target.value;
      if profile.lower as real <= target <= profile.upper as real {
        SetTemperatureStaysInLimits(target, profile.lower, profile.upper);
      }
    }
  }

  /**
   What the raw limitation register refuses: 1 refuses heating and automatic, 2 refuses cooling and automatic, 0 refuses
   nothing; a mode that is not refused is planned for a target within the device's limits.
   */
  lemma LimitationOnTheRegister(intent: Intent, slave: int, limitationRaw: int, upperRaw: int, lowerRaw: int)
    requires ValidHvac(intent.hvac) && intent.hvac.enabled && 1 <= slave <= 255
    requires BuildDeviceProfile(limitationRaw, upperRaw, lowerRaw).Some?
    ensures var r := PlanOf(intent, slave, BuildDeviceProfile(limitationRaw, upperRaw, lowerRaw));
            var mode := intent.hvac.mode;
            var refused := (limitationRaw == 1 && (mode.Heat? || mode.Auto?)) || (limitationRaw == 2 && (mode.Cool? || mode.Auto?));
            && (r == Refused(ModeProhibited) <==> refused)
            && (r.Planned? <==> !refused && lowerRaw as real <= intent.hvac.target.value <= upperRaw as real)
  {
    PlanSafety(intent, slave, BuildDeviceProfile(limitationRaw, upperRaw, lowerRaw).value);
  }

  /** Any plan, whatever the profile it was made with, is safe to execute. */
  lemma PlannedIsSafe(intent: Intent, slave: int, profile: Option<DeviceProfile>)
    requires PlanOf(intent, slave, profile).Planned?
    ensures var plan := PlanOf(intent, slave, profile).plan;
            SafePlan(plan) && plan.slave == slave && plan.roomKey == intent.roomKey && plan.version == intent.version
  {
  }

  /** The mode that a register value stands for. */
  function HvacFromMode(mode: int): Option<HvacMode> {
    if mode == 4 then Some(Heat) else if mode == 1 then Some(Cool) else if mode == 5 then Some(Auto) else None
  }

  /**
   A plan says what its intent says: read back from its expectations, power, mode and target (to within 0.05
   degrees) are those of the intent, power and mode from the status registers.
   */
  lemma PlanCarriesIntent(intent: Intent, slave: int, profile: Option<DeviceProfile>)
    requires ValidHvac(intent.hvac) && PlanOf(intent, slave, profile).Planned?
    ensures var shown := PlanOf(intent, slave, profile).plan.expectations;
            if intent.hvac.enabled then
              && |shown| == 3
              && shown[0].address == MODE_STATUS && HvacFromMode(shown[0].expected) == Some(intent.hvac.mode)
              && shown[1].address == SET_TEMPERATURE
              && -0.05 <= DecodeSetTemperature(shown[1].expected) - intent.hvac.target.value <= 0.05
              && shown[2] == Expectation(POWER_STATUS, 1)
            else
              shown == [Expectation(POWER_STATUS, 0)]
  {
    if intent.hvac.enabled {
      SetTemperatureWithinHalfStep(intent.hvac.target.value);
    }
  }

  // Readback

  function Lookup(observed: map<int, int>, address: int): Option<int> {
    if address in observed then Some(observed[address]) else None
  }

  function Mismatches(expectations: seq<Expectation>, observed: map<int, int>): (r: seq<Mismatch>)
    ensures r == [] <==> forall i :: 0 <= i < |expectations| ==>
              Lookup(observed, expectations[i].address) == Some(expectations[i].expected)
  {
    if expectations == [] then []
    else
      var e := expectations[0];
      var rest := Mismatches(expectations[1..], observed);
      assert forall i :: 0 <= i < |expectations| - 1 ==> expectations[1..][i] == expectations[i + 1];
      if Lookup(observed, e.address) != Some(e.expected) then
        [Mismatch(e.address, e.expected, Lookup(observed, e.address))] + rest
      else
        assert rest == [] ==> forall i :: 0 < i < |expectations| ==> expectations[i] == expectations[1..][i - 1];
        rest
  }

  function CompareReadback(plan: Plan, observed: map<int, int>): seq<Mismatch> {
    Mismatches(plan.expectations, observed)
  }
}
