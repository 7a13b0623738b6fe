/**
 The register simulator (app/g301_adapter/simulator.py): a device whose status registers follow
 its control registers only after a number of reads, and an entrance that routes by slave address.
 */
module Simulator {
  import opened Domain
  import opened Registers
  import opened Protocol

  datatype Pending = Pending(value: int, remaining: int)

  datatype Device = Device(slave: int, delay: nat, registers: map<int, int>, pending: map<int, Pending>)
  {
    /** The content of a register; unknown registers read as zero. */
    function Reg(address: int): int {
      if address in registers then registers[address] else 0
    }
  }

  // Reading and writing as functions

  /** One read of one address: a pending status comes one read closer. */
  function Touch(d: Device, address: int): Device {
    if address !in d.pending then d
    else
      var p := d.pending[address];
      if p.remaining - 1 <= 0 then
        d.(registers := d.registers[address := p.value], pending := d.pending - {address})
      else
        d.(pending := d.pending[address := Pending(p.value, p.remaining - 1)])
  }

  function TouchRange(d: Device, address: int, count: nat): Device {
    if count == 0 then d else Touch(TouchRange(d, address, count - 1), address + count - 1)
  }

  function Contents(d: Device, address: int, count: nat): (r: seq<int>)
    ensures |r| == count
    ensures forall i :: 0 <= i < count ==> r[i] == d.Reg(address + i)
  {
    seq(count, i => d.Reg(address + i))
  }

  function SetStatus(d: Device, address: int, value: int): Device {
    if d.delay != 0 then d.(pending := d.pending[address := Pending(value, d.delay)])
    else d.(registers := d.registers[address := value])
  }

  function Store(d: Device, address: int, value: int): Device {
    var stored := d.(registers := d.registers[address := value]);
    if address == POWER then SetStatus(stored, POWER_STATUS, value)
    else if address == MODE then SetStatus(stored, MODE_STATUS, value)
    else stored
  }

  datatype Response = Response(device: Device, outcome: Outcome)

  function Respond(d: Device, op: Operation): Response {
    if op.slave != d.slave then Response(d, Fault(DeviceOffline))
    else
      match op
      case Read(_, address, count) =>
        if count < 1 then Response(d, BadValue)
        else Response(TouchRange(d, address, count), Ok(Contents(d, address, count)))
      case Write(_, address, value) =>
        if !(0 <= value <= WORD_MAX) then Response(d, BadValue)
        else Response(Store(d, address, value), Ok([]))
  }

  // The device as an object

  class RegisterSimulator {
    const slave: int
    const delay: nat
    var registers: map<int, int>
    var pendingStatus: map<int, Pending>

    function View(): Device
      reads this
    {
      Device(slave, delay, registers, pendingStatus)
    }

    constructor (slave: int, initial: map<int, int>, delay: nat)
      ensures View() == Device(slave, delay, DefaultRegisters() + initial, map[])
    {
      this.slave := slave;
      this.delay := delay;
      this.registers := DefaultRegisters() + initial;
      this.pendingStatus := map[];
    }

    method ReadHoldingRegisters(slave: int, address: int, count: int) returns (outcome: Outcome)
      modifies this
      ensures View() == Respond(old(View()), Read(slave, address, count)).device
      ensures outcome == Respond(old(View()), Read(slave, address, count)).outcome
    {
      if slave != this.slave {
        return Fault(DeviceOffline);
      }
      if count < 1 {
        return BadValue;
      }
      var values: seq<int> := [];
      for offset := 0 to count
        invariant |values| == offset && forall i :: 0 <= i < offset ==> values[i] == View().Reg(address + i)
        invariant View() == old(View())
      {
        values := values + [if address + offset in registers then registers[address + offset] else 0];
      }
      assert values == Contents(old(View()), address, count);
      AdvancePendingStatus(address, count);
      return Ok(values);
    }

    method AdvancePendingStatus(address: int, count: nat)
      modifies this
      ensures View() == TouchRange(old(View()), address, count)
    {
      for offset := 0 to count
        invariant View() == TouchRange(old(View()), address, offset)
      {
        var pendingAddress := address + offset;
        if pendingAddress !in pendingStatus {
          continue;
        }
        var Pending(value, remainingReads) := pendingStatus[pendingAddress];
        remainingReads := remainingReads - 1;
        if remainingReads <= 0 {
          registers := registers[pendingAddress := value];
          pendingStatus := pendingStatus - {pendingAddress};
        } else {
          pendingStatus := pendingStatus[pendingAddress := Pending(value, remainingReads)];
        }
      }
    }

    method WriteRegister(slave: int, address: int, value: int) returns (outcome: Outcome)
      modifies this
      ensures View() == Respond(old(View()), Write(slave, address, value)).device
      ensures outcome == Respond(old(View()), Write(slave, address, value)).outcome
    {
      if slave != this.slave {
        return Fault(DeviceOffline);
      }
      if !(0 <= value <= WORD_MAX) {
        return BadValue;
      }
      registers := registers[address := value];
      MirrorControlToStatus(address, value);
      return Ok([]);
    }

    method MirrorControlToStatus(address: int, value: int)
      modifies this
      ensures View() == if address == POWER then SetStatus(old(View()), POWER_STATUS, value)
                        else if address == MODE then SetStatus(old(View()), MODE_STATUS, value)
                        else old(View())
    {
      if address == POWER {
        SetStatusRegister(POWER_STATUS, value);
      } else if address == MODE {
        SetStatusRegister(MODE_STATUS, value);
      }
    }

    method SetStatusRegister(address: int, value: int)
      modifies this
      ensures View() == SetStatus(old(View()), address, value)
    {
      if delay != 0 {
        pendingStatus := pendingStatus[address := Pending(value, delay)];
      } else {
        registers := registers[address := value];
      }
    }
  }

  const INDOOR_FAULT_FLAG: int := 0x0321
  const INDOOR_FAULT_BITS: int := 0x0322

  function DefaultRegisters(): map<int, int> {
    map[POWER := 0, MODE := 0, SET_TEMPERATURE := 220, MODE_LIMITATION := 0, UPPER_LIMIT := 31,
        LOWER_LIMIT := 16, CAPABILITIES := 0, POWER_STATUS := 0, MODE_STATUS := 0, FAN_STATUS := 0,
        INDOOR_FAULT_FLAG := 0, INDOOR_FAULT_BITS := 0]
  }

  // The entrance

  type Devices = map<int, Device>

  datatype EntranceResponse = EntranceResponse(devices: Devices, outcome: Outcome)

  function RespondEntrance(devices: Devices, op: Operation): EntranceResponse {
    if op.slave !in devices then EntranceResponse(devices, Fault(DeviceOffline))
    else
      var r := Respond(devices[op.slave], op);
      EntranceResponse(devices[op.slave := r.device], r.outcome)
  }

  class EntranceSimulator {
    const devices: map<int, RegisterSimulator>
    var operations: seq<Operation>

    /** No simulator stands for two slaves. */
    predicate Valid() {
      forall a, b :: a in devices && b in devices && a != b ==> devices[a] != devices[b]
    }

    function View(): Devices
      reads devices.Values
    {
      map a | a in devices :: devices[a].View()
    }

    constructor (devices: map<int, RegisterSimulator>)
      ensures this.devices == devices && operations == []
    {
      this.devices := devices;
      this.operations := [];
    }

    method Perform(op: Operation) returns (outcome: Outcome)
      requires Valid()
      modifies this`operations, devices.Values
      ensures operations == old(operations) + [op]
      ensures View() == RespondEntrance(old(View()), op).devices
      ensures outcome == RespondEntrance(old(View()), op).outcome
    {
      operations := operations + [op];
      if op.slave !in devices {
        return Fault(DeviceOffline);
      }
      var device := devices[op.slave];
      match op {
      case Read(slave, address, count) =>
        outcome := device.ReadHoldingRegisters(slave, address, count);
      case Write(slave, address, value) =>
        outcome := device.WriteRegister(slave, address, value);
      }
      assert old(View())[op.slave] == old(device.View());
      assert forall a :: a in devices && a != op.slave ==> devices[a].View() == old(devices[a].View());
      assert View() == old(View())[op.slave := device.View()];
    }
  }

  // The simulator as the worker's bus

  /** The devices after the bus operations of a history. */
  function DevicesAfter(devices: Devices, log: History): Devices {
    if log == [] then devices
    else
      var before := DevicesAfter(devices, log[..|log| - 1]);
      var last := log[|log| - 1];
      if last.Bus? then RespondEntrance(before, last.op).devices else before
  }

  function SimulatedAnswer(devices: Devices, log: History): Outcome {
    if log == [] then Abandoned
    else
      var last := log[|log| - 1];
      if last.Bus? then RespondEntrance(DevicesAfter(devices, log[..|log| - 1]), last.op).outcome else Abandoned
  }

  /** The bus is the simulated entrance. */
  ghost predicate Simulated(env: Environment, devices: Devices) {
    forall log: History :: env.client(log) == SimulatedAnswer(devices, log)
  }

  lemma DevicesAppend(devices: Devices, log: History, e: Event)
    ensures DevicesAfter(devices, log + [e]) ==
            if e.Bus? then RespondEntrance(DevicesAfter(devices, log), e.op).devices
            else DevicesAfter(devices, log)
  {
    assert (log + [e])[..|log|] == log;
  }

  // What keeps pending statuses in order

  /** Only the two status registers are ever pending, and only on a device with a delay. */
  predicate DeviceOk(d: Device) {
    && (forall a :: a in d.pending ==> a in {POWER_STATUS, MODE_STATUS} && 1 <= d.pending[a].remaining)
    && (d.delay == 0 ==> d.pending == map[])
  }

  lemma {:induction false} TouchRangeOk(d: Device, address: int, count: nat)
    requires DeviceOk(d)
    ensures DeviceOk(TouchRange(d, address, count))
  {
    if count > 0 {
      TouchRangeOk(d, address, count - 1);
    }
  }

  lemma RespondKeepsDeviceOk(d: Device, op: Operation)
    requires DeviceOk(d)
    ensures DeviceOk(Respond(d, op).device)
    ensures Respond(d, op).device.slave == d.slave && Respond(d, op).device.delay == d.delay
  {
    if op.Read? && op.count >= 1 {
      TouchRangeOk(d, op.address, op.count);
      TouchRangeFixed(d, op.address, op.count);
    }
  }

  lemma {:induction false} TouchRangeFixed(d: Device, address: int, count: nat)
    ensures TouchRange(d, address, count).slave == d.slave && TouchRange(d, address, count).delay == d.delay
  {
    if count > 0 {
      TouchRangeFixed(d, address, count - 1);
    }
  }
}
