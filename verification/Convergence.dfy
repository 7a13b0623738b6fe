/**
 The worker against the simulated entrance: how many readbacks it takes until delayed status
 registers confirm what was written.
 */
module Convergence {
  import opened Domain
  import opened Registers
  import opened Planner
  import opened Protocol
  import opened ProtocolSafety
  import opened Simulator

  /** The device that answers for the slave after the history. */
  ghost predicate Present(devices: Devices, log: History, slave: int, d: Device) {
    var now := DevicesAfter(devices, log);
    slave in now && now[slave] == d && d.slave == slave
  }

  /** What one operation, tried by the worker, does to a present device. */
  lemma SimulatedRetry(env: Environment, devices: Devices, log: History, op: Operation, d: Device, attempts: nat)
    requires Simulated(env, devices) && Present(devices, log, op.slave, d) && 1 <= attempts
    requires Respond(d, op).outcome.Ok?
    ensures var a := Retry(env, op, log, attempts);
            && a.outcome == Respond(d, op).outcome
            && Present(devices, a.log, op.slave, Respond(d, op).device)
  {
    var now := log + [Bus(op)];
    assert now[..|log|] == log;
    DevicesAppend(devices, log, Bus(op));
    assert env.client(now) == SimulatedAnswer(devices, now);
    if op.Read? {
      TouchRangeFixed(d, op.address, op.count);
    }
  }

  lemma MarkKeepsPresent(devices: Devices, log: History, e: Event, slave: int, d: Device)
    requires Present(devices, log, slave, d) && !e.Bus?
    ensures Present(devices, log + [e], slave, d)
  {
    DevicesAppend(devices, log, e);
  }

  lemma SimulatedReadOne(env: Environment, s: Settings, devices: Devices, log: History, slave: int, address: int, d: Device)
    requires s.Valid() && Simulated(env, devices) && Present(devices, log, slave, d)
    ensures var a := ReadOne(env, s, slave, address, log);
            && a.outcome == Ok([d.Reg(address)])
            && Present(devices, a.log, slave, Touch(d, address))
  {
    hide Retry;
    SimulatedRetry(env, devices, log, Read(slave, address, 1), d, s.operationAttempts);
    assert TouchRange(d, address, 0) == d;
    assert Contents(d, address, 1) == [d.Reg(address)];
  }

  // Reading the profile

  /** The profile the device's registers describe. */
  function DeviceProfileOf(d: Device): Option<DeviceProfile> {
    BuildDeviceProfile(d.Reg(MODE_LIMITATION), d.Reg(UPPER_LIMIT), d.Reg(LOWER_LIMIT))
  }

  lemma SimulatedProfile(env: Environment, s: Settings, devices: Devices, log: History, slave: int, d: Device)
    requires s.Valid() && Simulated(env, devices) && Present(devices, log, slave, d) && DeviceOk(d)
    requires DeviceProfileOf(d).Some?
    ensures var p := ReadProfile(env, s, slave, log);
            && p.result == GotProfile(DeviceProfileOf(d).value)
            && Present(devices, p.log, slave, d)
  {
    hide Retry;
    SimulatedReadOne(env, s, devices, log, slave, CAPABILITIES, d);
    var c := ReadOne(env, s, slave, CAPABILITIES, log);
    var op := Read(slave, MODE_LIMITATION, 3);
    assert Touch(d, CAPABILITIES) == d;
    LimitsUntouched(d);
    SimulatedRetry(env, devices, c.log, op, d, s.operationAttempts);
    assert Contents(d, MODE_LIMITATION, 3) == [d.Reg(MODE_LIMITATION), d.Reg(UPPER_LIMIT), d.Reg(LOWER_LIMIT)];
  }

  lemma LimitsUntouched(d: Device)
    requires DeviceOk(d)
    ensures TouchRange(d, MODE_LIMITATION, 3) == d
  {
    assert TouchRange(d, MODE_LIMITATION, 0) == d;
    assert TouchRange(d, MODE_LIMITATION, 1) == d;
    assert TouchRange(d, MODE_LIMITATION, 2) == d;
  }

  // Writing

  function StoreAll(d: Device, writes: seq<RegisterWrite>, done: nat): Device
    requires done <= |writes|
    decreases |writes| - done
  {
    if done == |writes| then d else StoreAll(Store(d, writes[done].address, writes[done].value), writes, done + 1)
  }

  ghost predicate WordValues(writes: seq<RegisterWrite>) {
    forall i :: 0 <= i < |writes| ==> 0 <= writes[i].value <= WORD_MAX
  }

  lemma {:induction false} SimulatedWrites(env: Environment, s: Settings, devices: Devices, log: History, slave: int,
                                           d: Device, writes: seq<RegisterWrite>, done: nat)
    requires s.Valid() && Simulated(env, devices) && Present(devices, log, slave, d)
    requires WordValues(writes) && done <= |writes|
    ensures var w := WriteAll(env, s, slave, writes, done, log);
            && w.outcome.Ok?
            && Present(devices, w.log, slave, StoreAll(d, writes, done))
    decreases |writes| - done
  {
    hide Retry;
    if done < |writes| {
      var op := Write(slave, writes[done].address, writes[done].value);
      SimulatedRetry(env, devices, log, op, d, s.operationAttempts);
      SimulatedWrites(env, s, devices, Retry(env, op, log, s.operationAttempts).log, slave,
                      Store(d, op.address, op.value), writes, done + 1);
    }
  }

  // Sweeping

  function TouchAll(d: Device, expectations: seq<Expectation>): Device
    decreases |expectations|
  {
    if expectations == [] then d else TouchAll(Touch(d, expectations[0].address), expectations[1..])
  }

  ghost predicate Shows(observed: map<int, int>, d: Device, expectations: seq<Expectation>) {
    forall i :: 0 <= i < |expectations| ==> Lookup(observed, expectations[i].address) == Some(d.Reg(expectations[i].address))
  }

  lemma TouchElsewhere(d: Device, address: int, other: int)
    requires address != other
    ensures Touch(d, address).Reg(other) == d.Reg(other)
    ensures other in Touch(d, address).pending <==> other in d.pending
    ensures other in d.pending ==> Touch(d, address).pending[other] == d.pending[other]
  {
  }

  lemma {:induction false} SimulatedSweep(env: Environment, s: Settings, devices: Devices, log: History, slave: int,
                                          d: Device, expectations: seq<Expectation>, observed: map<int, int>)
    requires s.Valid() && Simulated(env, devices) && Present(devices, log, slave, d) && DistinctAddresses(expectations)
    ensures var a := Sweep(env, s, slave, expectations, observed, log);
            && a.result.Observed?
            && Shows(a.result.values, d, expectations)
            && Untouched(expectations, observed, a.result.values)
            && Present(devices, a.log, slave, TouchAll(d, expectations))
    decreases |expectations|
  {
    hide Retry;
    if expectations != [] {
      var address, rest := expectations[0].address, expectations[1..];
      SimulatedReadOne(env, s, devices, log, slave, address, d);
      var r := ReadOne(env, s, slave, address, log);
      assert forall i :: 0 <= i < |rest| ==> rest[i] == expectations[i + 1];
      SimulatedSweep(env, s, devices, r.log, slave, Touch(d, address), rest, observed[address := d.Reg(address)]);
      var values := Sweep(env, s, slave, rest, observed[address := d.Reg(address)], r.log).result.values;
      UntouchedStep(expectations, observed, values, d.Reg(address));
      forall i | 0 <= i < |expectations|
        ensures Lookup(values, expectations[i].address) == Some(d.Reg(expectations[i].address))
      {
        if i > 0 {
          assert expectations[i] == rest[i - 1];
          TouchElsewhere(d, address, expectations[i].address);
        }
      }
    }
  }

  // Settling

  /** The register shows what is expected and nothing is pending for it. */
  predicate Settled(d: Device, e: Expectation) {
    e.address !in d.pending && d.Reg(e.address) == e.expected
  }

  /** Every expected register is settled or will be after so many more reads. */
  ghost predicate Settling(d: Device, expectations: seq<Expectation>, left: nat) {
    forall i :: 0 <= i < |expectations| ==>
      var e := expectations[i];
      || Settled(d, e)
      || (left >= 1 && e.address in d.pending && d.pending[e.address] == Pending(e.expected, left))
  }

  predicate Agrees(d: Device, expectations: seq<Expectation>) {
    forall i :: 0 <= i < |expectations| ==> d.Reg(expectations[i].address) == expectations[i].expected
  }

  lemma {:induction false} TouchAllAt(d: Device, expectations: seq<Expectation>, address: int)
    requires DistinctAddresses(expectations)
    ensures var t := TouchAll(d, expectations);
            var one := if exists i :: 0 <= i < |expectations| && expectations[i].address == address then Touch(d, address) else d;
            && t.Reg(address) == one.Reg(address)
            && (address in t.pending <==> address in one.pending)
            && (address in t.pending ==> t.pending[address] == one.pending[address])
    decreases |expectations|
  {
    if expectations != [] {
      var head, rest := expectations[0].address, expectations[1..];
      assert forall i :: 0 <= i < |rest| ==> rest[i] == expectations[i + 1];
      TouchAllAt(Touch(d, head), rest, address);
      if head == address {
        assert forall i :: 0 <= i < |rest| ==> rest[i].address != address;
      } else {
        TouchElsewhere(d, head, address);
        if i :| 0 <= i < |expectations| && expectations[i].address == address {
          assert rest[i - 1].address == address;
        }
      }
    }
  }

  /** One sweep brings every register one read closer to what is expected. */
  lemma SweepSettles(d: Device, expectations: seq<Expectation>, left: nat)
    requires DistinctAddresses(expectations) && Settling(d, expectations, left)
    ensures Settling(TouchAll(d, expectations), expectations, if left == 0 then 0 else left - 1)
    ensures left >= 2 ==> (Agrees(TouchAll(d, expectations), expectations) <==> Agrees(d, expectations))
  {
    var t := TouchAll(d, expectations);
    forall i | 0 <= i < |expectations|
      ensures var e := expectations[i];
              || Settled(t, e)
              || (left >= 2 && e.address in t.pending && t.pending[e.address] == Pending(e.expected, left - 1))
      ensures left >= 2 ==> t.Reg(expectations[i].address) == d.Reg(expectations[i].address)
    {
      TouchAllAt(d, expectations, expectations[i].address);
    }
  }

  lemma SettledAgrees(d: Device, expectations: seq<Expectation>)
    requires Settling(d, expectations, 0)
    ensures Agrees(d, expectations)
  {
  }

  /** Registers without a pending status only change by writes. */
  ghost predicate NotPendingKept(before: Device, after: Device) {
    forall x :: x !in before.pending ==> x !in after.pending && after.Reg(x) == before.Reg(x)
  }

  /**
   A readback against a device that settles after so many reads ends without mismatch exactly when the
   device already agreed or there is one attempt more than reads to wait for.
   */
  lemma {:induction false} SimulatedReadback(env: Environment, s: Settings, devices: Devices, log: History, plan: Plan,
                                             d: Device, attempts: nat, left: nat) returns (final: Device)
    requires s.Valid() && Simulated(env, devices) && Present(devices, log, plan.slave, d) && 1 <= attempts
    requires DistinctAddresses(plan.expectations) && Settling(d, plan.expectations, left)
    ensures var a := Readback(env, s, plan, log, attempts);
            && a.result.Observed?
            && (CompareReadback(plan, a.result.values) == [] <==> Agrees(d, plan.expectations) || attempts > left)
            && Present(devices, a.log, plan.slave, final)
            && (CompareReadback(plan, a.result.values) == [] ==> Agrees(final, plan.expectations))
            && NotPendingKept(d, final)
    decreases attempts
  {
    hide Sweep;
    var expectations := plan.expectations;
    SimulatedSweep(env, s, devices, log, plan.slave, d, expectations, map[]);
    var a := Sweep(env, s, plan.slave, expectations, map[], log);
    var values := a.result.values;
    assert CompareReadback(plan, values) == [] <==> Agrees(d, expectations);
    var marked := a.log + [Swept(plan, values)];
    final := TouchAll(d, expectations);
    MarkKeepsPresent(devices, a.log, Swept(plan, values), plan.slave, final);
    SweepSettles(d, expectations, left);
    NotPendingUntouched(d, expectations);
    if left == 0 {
      SettledAgrees(d, expectations);
    }
    if Agrees(d, expectations) {
      AgreementStays(d, expectations, left);
    } else if attempts > 1 {
      if left == 1 {
        SettledAgrees(final, expectations);
      }
      final := SimulatedReadback(env, s, devices, marked, plan, final, attempts - 1, left - 1);
    }
  }

  lemma {:induction false} NotPendingUntouched(d: Device, expectations: seq<Expectation>)
    ensures NotPendingKept(d, TouchAll(d, expectations))
    decreases |expectations|
  {
    if expectations != [] {
      NotPendingUntouched(Touch(d, expectations[0].address), expectations[1..]);
    }
  }

  lemma AgreementStays(d: Device, expectations: seq<Expectation>, left: nat)
    requires DistinctAddresses(expectations) && Settling(d, expectations, left) && Agrees(d, expectations)
    ensures Agrees(TouchAll(d, expectations), expectations)
  {
    forall i | 0 <= i < |expectations|
      ensures TouchAll(d, expectations).Reg(expectations[i].address) == expectations[i].expected
    {
      TouchAllAt(d, expectations, expectations[i].address);
    }
  }

  // A fresh attempt

  /** Whether the device's status already is what the writes ask for. */
  predicate AlreadyThere(d: Device, writes: seq<RegisterWrite>) {
    forall i :: 0 <= i < |writes| ==>
      && (writes[i].address == POWER ==> d.Reg(POWER_STATUS) == writes[i].value)
      && (writes[i].address == MODE ==> d.Reg(MODE_STATUS) == writes[i].value)
  }

  ghost predicate PlannedFor(intent: Intent, slave: int, d: Device, plan: Plan) {
    && (!WantsPowerOff(intent) ==> DeviceProfileOf(d).Some?)
    && PlanOf(intent, slave, if WantsPowerOff(intent) then None else DeviceProfileOf(d)) == Planned(plan)
  }

  ghost predicate Holds(d: Device, writes: seq<RegisterWrite>) {
    forall i :: 0 <= i < |writes| ==> writes[i].address !in d.pending && d.Reg(writes[i].address) == writes[i].value
  }

  /**
   After the writes the device settles within its delay, agrees at once only without delay or if it
   already was there, and holds the written commands.
   */
  ghost predicate StartsSettling(d: Device, writes: seq<RegisterWrite>) {
    var w := StoreAll(d, writes, 0);
    && Settling(w, Expectations(writes), d.delay)
    && (Agrees(w, Expectations(writes)) <==> d.delay == 0 || AlreadyThere(d, writes))
    && Holds(w, writes)
  }

  lemma OffSettles(d: Device)
    requires DeviceOk(d)
    ensures StartsSettling(d, [RegisterWrite(POWER, 0)])
  {
    var writes := [RegisterWrite(POWER, 0)];
    var w := Store(d, POWER, 0);
    assert StoreAll(w, writes, 1) == w;
    assert Expectations(writes) == [Expectation(POWER_STATUS, 0)];
  }

  function SwitchedOn(d: Device, mode: int, setpoint: int): Device {
    Store(Store(Store(d, MODE, mode), SET_TEMPERATURE, setpoint), POWER, 1)
  }

  lemma OnStoresInOrder(d: Device, mode: int, setpoint: int)
    ensures StoreAll(d, PowerOnWrites(mode, setpoint), 0) == SwitchedOn(d, mode, setpoint)
  {
    hide Store;
    var writes := PowerOnWrites(mode, setpoint);
    var d1 := Store(d, MODE, mode);
    var d2 := Store(d1, SET_TEMPERATURE, setpoint);
    var d3 := Store(d2, POWER, 1);
    assert StoreAll(d3, writes, 3) == d3;
    assert StoreAll(d2, writes, 2) == StoreAll(d3, writes, 3);
    assert StoreAll(d1, writes, 1) == StoreAll(d2, writes, 2);
  }

  lemma OnStores(d: Device, mode: int, setpoint: int)
    requires DeviceOk(d)
    ensures var w := SwitchedOn(d, mode, setpoint);
            && w.Reg(MODE) == mode && w.Reg(SET_TEMPERATURE) == setpoint && w.Reg(POWER) == 1
            && MODE !in w.pending && SET_TEMPERATURE !in w.pending && POWER !in w.pending
            && (if d.delay == 0 then
                  && w.pending == map[] && w.Reg(MODE_STATUS) == mode && w.Reg(POWER_STATUS) == 1
                else
                  && MODE_STATUS in w.pending && w.pending[MODE_STATUS] == Pending(mode, d.delay)
                  && POWER_STATUS in w.pending && w.pending[POWER_STATUS] == Pending(1, d.delay)
                  && w.Reg(MODE_STATUS) == d.Reg(MODE_STATUS) && w.Reg(POWER_STATUS) == d.Reg(POWER_STATUS))
  {
  }

  lemma OnSettles(d: Device, mode: int, setpoint: int)
    requires DeviceOk(d)
    ensures StartsSettling(d, PowerOnWrites(mode, setpoint))
  {
    hide StoreAll, SwitchedOn;
    OnStoresInOrder(d, mode, setpoint);
    OnStores(d, mode, setpoint);
    var writes := PowerOnWrites(mode, setpoint);
    var es := Expectations(writes);
    assert es == [Expectation(MODE_STATUS, mode), Expectation(SET_TEMPERATURE, setpoint), Expectation(POWER_STATUS, 1)];
    var w := StoreAll(d, writes, 0);
    assert Agrees(w, es) <==> w.Reg(es[0].address) == mode && w.Reg(es[2].address) == 1;
    assert AlreadyThere(d, writes) <==> d.Reg(MODE_STATUS) == writes[0].value && d.Reg(POWER_STATUS) == writes[2].value;
  }

  lemma PlanStartsSettling(intent: Intent, slave: int, d: Device, plan: Plan)
    requires DeviceOk(d) && PlannedFor(intent, slave, d, plan)
    ensures StartsSettling(d, plan.writes)
  {
    if WantsPowerOff(intent) {
      OffSettles(d);
    } else {
      OnSettles(d, plan.writes[0].value, plan.writes[1].value);
    }
  }

  lemma SimulatedWriteOut(env: Environment, s: Settings, devices: Devices, intent: Intent, slave: int, plan: Plan,
                          st: Local, d: Device) returns (final: Device)
    requires s.Valid() && Simulated(env, devices) && Present(devices, st.log, slave, d) && DeviceOk(d)
    requires st.room.attempt.Some? && PlannedFor(intent, slave, d, plan)
    ensures var r := WriteOut(env, s, intent, slave, plan, st);
            && r.result.Some?
            && r.result.value.status == (if s.readbackAttempts > d.delay || AlreadyThere(d, plan.writes) then Applied else ReadbackMismatch)
            && Present(devices, r.st.log, slave, final)
            && Holds(final, plan.writes)
            && (r.result.value.status.Applied? ==> Agrees(final, plan.expectations))
  {
    hide WriteAll, Readback, StoreAll, PlanOf, Settling, Agrees, AlreadyThere;
    PlannedIsSafe(intent, slave, if WantsPowerOff(intent) then None else DeviceProfileOf(d));
    var started := BeginWriting(st, plan);
    MarkKeepsPresent(devices, st.log, WritePhase(plan), slave, d);
    SimulatedWrites(env, s, devices, started.log, slave, d, plan.writes, 0);
    var w := WriteAll(env, s, slave, plan.writes, 0, started.log);
    var written := StoreAll(d, plan.writes, 0);
    PlanStartsSettling(intent, slave, d, plan);
    final := SimulatedReadback(env, s, devices, w.log, plan, written, s.readbackAttempts, d.delay);
  }

  /** At the moment of delivery the intent holds, give or take the skew, and its slave waits for nothing. */
  ghost predicate OpenNow(env: Environment, s: Settings, intent: Intent, slave: int, failures: Failures, log: History) {
    var now := env.clock(log);
    && (intent.expiresAt.Some? ==> now < intent.expiresAt.value + s.skew)
    && intent.effectiveFrom <= now + s.skew
    && (slave in failures && failures[slave].retryAfter.Some? ==> failures[slave].retryAfter.value <= now)
  }

  lemma SimulatedExecute(env: Environment, s: Settings, devices: Devices, intent: Intent, slave: int, plan: Plan,
                         st: Local, d: Device) returns (final: Device)
    requires s.Valid() && Simulated(env, devices) && Present(devices, st.log, slave, d) && DeviceOk(d)
    requires st.room.attempt.Some? && PlannedFor(intent, slave, d, plan)
    requires OpenNow(env, s, intent, slave, st.failures, st.log)
    ensures var r := Execute(env, s, intent, slave, st);
            && r.result.Some?
            && r.result.value.status == (if s.readbackAttempts > d.delay || AlreadyThere(d, plan.writes) then Applied else ReadbackMismatch)
            && Present(devices, r.st.log, slave, final)
            && Holds(final, plan.writes)
            && (r.result.value.status.Applied? ==> Agrees(final, plan.expectations))
  {
    hide WriteOut, ReadProfile, PlanOf, Agrees, AlreadyThere, Holds, DeviceProfileOf;
    var reset := Reset(st);
    if !WantsPowerOff(intent) {
      SimulatedProfile(env, s, devices, reset.log, slave, d);
    }
    var p := ProfileFor(env, s, intent, slave, reset.log);
    final := SimulatedWriteOut(env, s, devices, intent, slave, plan, reset.(log := p.log), d);
  }

  /**
   A new version delivered to a worker on the simulated entrance ends applied exactly when there are more
   readback attempts than the device delays its status by, or the status already was as planned; otherwise
   it ends as a readback mismatch. The commands are written in both cases, and when it ends applied the
   registers read back are those of the plan.
   */
  lemma DelayedStatusConvergence(env: Environment, s: Settings, devices: Devices, ws: WorkerState, intent: Intent,
                                 plan: Plan, d: Device) returns (final: Device)
    requires s.Valid() && intent.roomKey in s.slaves && Simulated(env, devices)
    requires Present(devices, ws.log, s.slaves[intent.roomKey], d) && DeviceOk(d)
    requires !NotAbove(Some(intent.version), RoomOf(ws, intent.roomKey).seen)
    requires PlannedFor(intent, s.slaves[intent.roomKey], d, plan)
    requires OpenNow(env, s, intent, s.slaves[intent.roomKey], ws.failures, ws.log + [Delivered(intent)])
    ensures var r := Apply(env, s, ws, intent);
            && r.result.Some?
            && r.result.value.status == (if s.readbackAttempts > d.delay || AlreadyThere(d, plan.writes) then Applied else ReadbackMismatch)
            && Present(devices, r.st.log, s.slaves[intent.roomKey], final)
            && Holds(final, plan.writes)
            && (r.result.value.status.Applied? ==> Agrees(final, plan.expectations))
  {
    hide Execute, PlannedFor, Agrees, AlreadyThere, Holds;
    var slave := s.slaves[intent.roomKey];
    MarkKeepsPresent(devices, ws.log, Delivered(intent), slave, d);
    var room := RoomOf(ws, intent.roomKey).(seen := Some(intent.version), attempt := Some(NewAttempt(intent)));
    final := SimulatedExecute(env, s, devices, intent, slave, plan,
                              Local(room, ws.failures, ws.log + [Delivered(intent)]), d);
  }
}
