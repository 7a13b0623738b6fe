/**
 The G301 register codecs and the device profile check (app/g301_adapter/registers.py).
 Temperatures are reals; a rejected value is None where the source raises ValueError.
 */
module Registers {
  import opened Domain

  const POWER: int := 0x0201
  const MODE: int := 0x0202
  const SET_TEMPERATURE: int := 0x0203
  const FAN_SPEED: int := 0x0204
  const MODE_LIMITATION: int := 0x0214
  const UPPER_LIMIT: int := 0x0215
  const LOWER_LIMIT: int := 0x0216
  const CAPABILITIES: int := 0x030E
  const POWER_STATUS: int := 0x030F
  const MODE_STATUS: int := 0x0310
  const FAN_STATUS: int := 0x0311

  const WORD_MAX: int := 0xFFFF

  /** Python's round: to the nearest integer, ties to the even one. */
  function RoundHalfEven(x: real): (r: int)
    ensures -0.5 <= r as real - x <= 0.5
    ensures r as real - x == 0.5 || r as real - x == -0.5 ==> r % 2 == 0
  {
    var f := x.Floor;
    var rest := x - f as real;
    if rest < 0.5 then f
    else if rest > 0.5 then f + 1
    else if f % 2 == 0 then f
    else f + 1
  }

  lemma RoundingIsMonotone(x: real, y: real)
    requires x <= y
    ensures RoundHalfEven(x) <= RoundHalfEven(y)
  {
  }

  lemma RoundingFixesIntegers(n: int)
    ensures RoundHalfEven(n as real) == n
  {
  }

  function EncodeSetTemperature(value: real): (r: Option<int>)
    ensures r.Some? <==> 16.0 <= value <= 31.0
    ensures r.Some? ==> 160 <= r.value <= 310
  {
    if 16.0 <= value <= 31.0 then Some(RoundHalfEven(value * 10.0)) else None
  }

  function DecodeSetTemperature(raw: int): real {
    raw as real / 10.0
  }

  lemma SetTemperatureWithinHalfStep(value: real)
    requires 16.0 <= value <= 31.0
    ensures -0.05 <= DecodeSetTemperature(EncodeSetTemperature(value).value) - value <= 0.05
  {
  }

  lemma SetTemperatureRoundTrip(raw: int)
    requires 160 <= raw <= 310
    ensures EncodeSetTemperature(DecodeSetTemperature(raw)) == Some(raw)
  {
    assert raw as real / 10.0 * 10.0 == raw as real;
    RoundingFixesIntegers(raw);
  }

  /** A target within whole-degree limits is encoded within ten times these limits. */
  lemma SetTemperatureStaysInLimits(value: real, lower: int, upper: int)
    requires 16 <= lower <= upper <= 31
    requires lower as real <= value <= upper as real
    ensures EncodeSetTemperature(value).Some?
    ensures 10 * lower <= EncodeSetTemperature(value).value <= 10 * upper
  {
    RoundingIsMonotone((10 * lower) as real, value * 10.0);
    RoundingIsMonotone(value * 10.0, (10 * upper) as real);
    RoundingFixesIntegers(10 * lower);
    RoundingFixesIntegers(10 * upper);
  }

  function EncodeIFeelAmbient(value: real): (r: Option<int>)
    ensures r.Some? <==> 0.0 <= value <= 50.0
  {
    if 0.0 <= value <= 50.0 then Some(RoundHalfEven(value * 10.0 + 1000.0)) else None
  }

  function DecodeOffsetTemperature(raw: int): real {
    (raw - 1000) as real / 10.0
  }

  lemma IFeelRoundTrip(raw: int)
    requires 1000 <= raw <= 1500
    ensures EncodeIFeelAmbient(DecodeOffsetTemperature(raw)) == Some(raw)
  {
    assert (raw - 1000) as real / 10.0 * 10.0 + 1000.0 == raw as real;
    RoundingFixesIntegers(raw);
  }

  datatype ModeLimitation = NoLimitation | HeatProhibited | CoolDryProhibited

  datatype DeviceProfile = DeviceProfile(limitation: ModeLimitation, lower: int, upper: int)
  {
    /** What an accepted profile guarantees. */
    predicate Valid() {
      16 <= lower <= 25 && 26 <= upper <= 31
    }
  }

  function BuildDeviceProfile(limitationRaw: int, upperRaw: int, lowerRaw: int): (r: Option<DeviceProfile>)
    ensures r.Some? ==> r.value.Valid() && r.value.lower == lowerRaw && r.value.upper == upperRaw
    ensures r.Some? <==> 0 <= limitationRaw <= 2 && 16 <= lowerRaw <= 25 && 26 <= upperRaw <= 31
  {
    if limitationRaw !in {0, 1, 2} then None
    else if !(16 <= lowerRaw <= 25) then None
    else if !(26 <= upperRaw <= 31) then None
    else if lowerRaw > upperRaw then None
    else
      var limitation := if limitationRaw == 0 then NoLimitation
                        else if limitationRaw == 1 then HeatProhibited
                        else CoolDryProhibited;
      Some(DeviceProfile(limitation, lowerRaw, upperRaw))
  }

  /** The register value of a mode, none for off. */
  function ModeFromHvac(mode: HvacMode): (r: Option<int>)
    ensures r.None? <==> mode.HvacOff?
  {
    match mode
    case HvacOff => None
    case Heat => Some(4)
    case Cool => Some(1)
    case Auto => Some(5)
  }
}
