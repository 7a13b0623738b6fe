/**
 Progress of the entrance worker: one delivery on a bus without faults finishes an attempt.
 */
module ProtocolProgress {
  import opened Domain
  import opened Registers
  import opened Planner
  import opened Protocol
  import opened ProtocolSafety
  import opened ProtocolRuns

  /** From here on the bus answers every operation, and reads with the registers asked for. */
  ghost predicate FaultFree(env: Environment, log: History) {
    forall h: History, op: Operation :: log <= h ==>
      var o := env.client(h + [Bus(op)]);
      o.Ok? && (op.Read? ==> |o.values| == op.count)
  }

  /** From here on the intent's window is open and the slave does not cool down. */
  ghost predicate Admitted(env: Environment, s: Settings, intent: Intent, slave: int, failures: Failures, log: History) {
    forall h: History :: log <= h ==>
      && intent.effectiveFrom <= env.clock(h) + s.skew
      && (slave in failures && failures[slave].retryAfter.Some? ==> failures[slave].retryAfter.value <= env.clock(h))
  }

  lemma FaultFreeLater(env: Environment, log: History, later: History)
    requires FaultFree(env, log) && log <= later
    ensures FaultFree(env, later)
  {
    forall h: History, op: Operation | later <= h
      ensures var o := env.client(h + [Bus(op)]);
              o.Ok? && (op.Read? ==> |o.values| == op.count)
    {
      assert log <= h;
    }
  }

  lemma CleanRetry(env: Environment, op: Operation, log: History, attempts: nat)
    requires FaultFree(env, log) && 1 <= attempts
    ensures var a := Retry(env, op, log, attempts);
            && a.outcome.Ok?
            && (op.Read? ==> |a.outcome.values| == op.count)
            && log <= a.log && FaultFree(env, a.log)
  {
    FaultFreeLater(env, log, log + [Bus(op)]);
  }

  lemma CleanProfile(env: Environment, s: Settings, intent: Intent, slave: int, log: History)
    requires s.Valid() && FaultFree(env, log)
    ensures var p := ProfileFor(env, s, intent, slave, log);
            && !p.result.ProfileFault? && !p.result.ProfileAbandoned?
            && log <= p.log && FaultFree(env, p.log)
  {
    hide Retry;
    CleanRetry(env, Read(slave, CAPABILITIES, 1), log, s.operationAttempts);
    var c := Retry(env, Read(slave, CAPABILITIES, 1), log, s.operationAttempts);
    CleanRetry(env, Read(slave, MODE_LIMITATION, 3), c.log, s.operationAttempts);
  }

  lemma {:induction false} CleanSweep(env: Environment, s: Settings, slave: int, expectations: seq<Expectation>,
                                      observed: map<int, int>, log: History)
    requires s.Valid() && FaultFree(env, log)
    ensures var a := Sweep(env, s, slave, expectations, observed, log);
            a.result.Observed? && log <= a.log && FaultFree(env, a.log)
    decreases |expectations|
  {
    hide Retry;
    if expectations != [] {
      var address := expectations[0].address;
      CleanRetry(env, Read(slave, address, 1), log, s.operationAttempts);
      var r := ReadOne(env, s, slave, address, log);
      CleanSweep(env, s, slave, expectations[1..], observed[address := r.outcome.values[0]], r.log);
    }
  }

  lemma {:induction false} CleanReadback(env: Environment, s: Settings, plan: Plan, log: History, attempts: nat)
    requires s.Valid() && FaultFree(env, log) && 1 <= attempts
    ensures var a := Readback(env, s, plan, log, attempts);
            a.result.Observed? && log <= a.log && FaultFree(env, a.log)
    decreases attempts
  {
    hide Sweep;
    CleanSweep(env, s, plan.slave, plan.expectations, map[], log);
    var a := Sweep(env, s, plan.slave, plan.expectations, map[], log);
    var marked := a.log + [Swept(plan, a.result.values)];
    FaultFreeLater(env, a.log, marked);
    if attempts > 1 {
      CleanReadback(env, s, plan, marked, attempts - 1);
    }
  }

  lemma {:induction false} CleanWrites(env: Environment, s: Settings, slave: int, writes: seq<RegisterWrite>, done: nat, log: History)
    requires s.Valid() && FaultFree(env, log) && done <= |writes|
    ensures var w := WriteAll(env, s, slave, writes, done, log);
            w.outcome.Ok? && log <= w.log && FaultFree(env, w.log)
    decreases |writes| - done
  {
    hide Retry;
    if done < |writes| {
      var op := Write(slave, writes[done].address, writes[done].value);
      CleanRetry(env, op, log, s.operationAttempts);
      CleanWrites(env, s, slave, writes, done + 1, Retry(env, op, log, s.operationAttempts).log);
    }
  }

  /** The call returned a result that is final for the version. */
  predicate Finished(r: Reply, version: int) {
    && r.result.Some?
    && r.st.room.attempt.Some?
    && r.st.room.attempt.value.phase.Terminal?
    && r.st.room.attempt.value.version == version
    && r.st.room.terminal == Some(version)
  }

  lemma WriteOutFinishes(env: Environment, s: Settings, intent: Intent, slave: int, plan: Plan, st: Local)
    requires s.Valid() && st.room.attempt.Some? && FaultFree(env, st.log)
    ensures Finished(WriteOut(env, s, intent, slave, plan, st), st.room.attempt.value.version)
  {
    hide WriteAll, Readback;
    var started := BeginWriting(st, plan);
    FaultFreeLater(env, st.log, started.log);
    CleanWrites(env, s, slave, plan.writes, 0, started.log);
    var w := WriteAll(env, s, slave, plan.writes, 0, started.log);
    CleanReadback(env, s, plan, w.log, s.readbackAttempts);
  }

  lemma ExecuteFinishes(env: Environment, s: Settings, intent: Intent, slave: int, st: Local)
    requires s.Valid() && st.room.attempt.Some? && FaultFree(env, st.log)
    requires Admitted(env, s, intent, slave, st.failures, st.log)
    ensures Finished(Execute(env, s, intent, slave, st), st.room.attempt.value.version)
  {
    hide WriteOut, ProfileFor, PlanOf;
    var reset := Reset(st);
    CleanProfile(env, s, intent, slave, reset.log);
    var p := ProfileFor(env, s, intent, slave, reset.log);
    var planning := PlanOf(intent, slave, p.result.Device());
    if planning.Planned? {
      WriteOutFinishes(env, s, intent, slave, planning.plan, reset.(log := p.log));
    }
  }

  lemma ResumeFinishes(env: Environment, s: Settings, intent: Intent, slave: int, st: Local)
    requires s.Valid() && st.room.attempt.Some? && FaultFree(env, st.log)
    requires Admitted(env, s, intent, slave, st.failures, st.log)
    ensures Finished(Resume(env, s, intent, slave, st), st.room.attempt.value.version)
  {
    hide Execute, Readback;
    if st.room.attempt.value.plan.None? {
      ExecuteFinishes(env, s, intent, slave, st);
    } else {
      CleanReadback(env, s, st.room.attempt.value.plan.value, st.log, s.readbackAttempts);
      var v := Verify(env, s, intent, st, false);
      if v.Differs? {
        assert Admitted(env, s, intent, slave, v.st.failures, v.st.log) by {
          forall h: History | v.st.log <= h
            ensures intent.effectiveFrom <= env.clock(h) + s.skew
            ensures slave in st.failures && st.failures[slave].retryAfter.Some? ==> st.failures[slave].retryAfter.value <= env.clock(h)
          {
            assert st.log <= h;
          }
        }
        ExecuteFinishes(env, s, intent, slave, v.st);
      }
    }
  }

  /**
   One delivery without bus faults, inside the validity window and outside a cooldown, makes the
   delivered version terminal, whatever state earlier deliveries of it were left in.
   */
  lemma FaultFreeDeliveryFinishes(env: Environment, s: Settings, ws: WorkerState, intent: Intent)
    requires s.Valid() && WorkerInv(env, s, ws) && intent.roomKey in s.slaves
    requires NotAbove(RoomOf(ws, intent.roomKey).seen, Some(intent.version))
    requires RoomOf(ws, intent.roomKey).seen == Some(intent.version) ==>
               RoomOf(ws, intent.roomKey).attempt.value.fingerprint == intent.StablePayload()
    requires FaultFree(env, ws.log)
    requires Admitted(env, s, intent, s.slaves[intent.roomKey], ws.failures, ws.log)
    ensures var d := Apply(env, s, ws, intent);
            && d.result.Some?
            && RoomOf(d.st, intent.roomKey).terminal == Some(intent.version)
  {
    hide ApplyToRoom, Unverified, GoodLog;
    var slave := s.slaves[intent.roomKey];
    var log := ws.log + [Delivered(intent)];
    assert Consistent(env, intent.roomKey, slave, View(ws, intent.roomKey));
    FaultFreeLater(env, ws.log, log);
    assert Admitted(env, s, intent, slave, ws.failures, log) by {
      forall h: History | log <= h
        ensures intent.effectiveFrom <= env.clock(h) + s.skew
        ensures slave in ws.failures && ws.failures[slave].retryAfter.Some? ==> ws.failures[slave].retryAfter.value <= env.clock(h)
      {
        assert ws.log <= h;
      }
    }
    RoomDeliveryFinishes(env, s, intent, slave, Local(RoomOf(ws, intent.roomKey), ws.failures, log));
  }

  lemma RoomDeliveryFinishes(env: Environment, s: Settings, intent: Intent, slave: int, st: Local)
    requires s.Valid() && RoomInv(st.room, intent.roomKey, slave)
    requires NotAbove(st.room.seen, Some(intent.version))
    requires st.room.seen == Some(intent.version) ==> st.room.attempt.value.fingerprint == intent.StablePayload()
    requires FaultFree(env, st.log) && Admitted(env, s, intent, slave, st.failures, st.log)
    ensures var r := ApplyToRoom(env, s, intent, slave, st);
            r.result.Some? && r.st.room.terminal == Some(intent.version)
  {
    hide Execute, Resume;
    if st.room.seen == Some(intent.version) {
      if !st.room.attempt.value.phase.Terminal? {
        ResumeFinishes(env, s, intent, slave, st);
        ExecuteFinishes(env, s, intent, slave, st);
      }
    } else {
      var room := st.room.(seen := Some(intent.version), attempt := Some(NewAttempt(intent)));
      ExecuteFinishes(env, s, intent, slave, st.(room := room));
    }
  }
}
