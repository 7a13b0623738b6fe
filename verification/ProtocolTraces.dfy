/**
 What runs of the entrance worker leave in its history: sweeps follow the write phase whose plan they check, and
 the applied watermark records what calls reported.
 */
module ProtocolTraces {
  import opened Domain
  import opened Planner
  import opened Protocol
  import opened ProtocolSafety
  import opened ProtocolRuns

  // The plan of the last write phase

  ghost function LastWritten(log: History, key: string, version: int): Option<Plan> {
    if log == [] then None
    else
      var last := log[|log| - 1];
      if IsWritePhase(last, key, version) then Some(last.plan)
      else LastWritten(log[..|log| - 1], key, version)
  }

  lemma LastWrittenAppend(log: History, e: Event, key: string, version: int)
    ensures LastWritten(log + [e], key, version) ==
            if IsWritePhase(e, key, version) then Some(e.plan) else LastWritten(log, key, version)
  {
    assert (log + [e])[..|log|] == log;
  }

  /** Every sweep checks the plan of the write phase before it. */
  ghost predicate SweepsFollowWrites(log: History) {
    if log == [] then true
    else
      var before, last := log[..|log| - 1], log[|log| - 1];
      && SweepsFollowWrites(before)
      && (last.Swept? ==> LastWritten(before, last.plan.roomKey, last.plan.version) == Some(last.plan))
  }

  lemma SweepsFollowWritesAppend(log: History, e: Event)
    ensures SweepsFollowWrites(log + [e]) <==>
            SweepsFollowWrites(log) && (e.Swept? ==> LastWritten(log, e.plan.roomKey, e.plan.version) == Some(e.plan))
  {
    assert (log + [e])[..|log|] == log;
  }

  lemma {:induction false} SweepFollowsWrite(log: History, k: nat)
    requires SweepsFollowWrites(log) && k < |log| && log[k].Swept?
    ensures LastWritten(log[..k], log[k].plan.roomKey, log[k].plan.version) == Some(log[k].plan)
  {
    if k < |log| - 1 {
      SweepFollowsWrite(log[..|log| - 1], k);
      assert log[..|log| - 1][..k] == log[..k];
    }
  }

  lemma {:induction false} LastWrittenIs(log: History, key: string, version: int, i: nat)
    requires i < |log| && IsWritePhase(log[i], key, version)
    requires forall x :: i < x < |log| ==> !IsWritePhase(log[x], key, version)
    ensures LastWritten(log, key, version) == Some(log[i].plan)
  {
    if i < |log| - 1 {
      LastWrittenIs(log[..|log| - 1], key, version, i);
    }
  }

  /** Nothing was written: the same write phases are the last ones, and sweeps still follow them. */
  ghost predicate SameWrites(before: History, after: History) {
    && (SweepsFollowWrites(before) ==> SweepsFollowWrites(after))
    && forall key, version :: LastWritten(after, key, version) == LastWritten(before, key, version)
  }

  lemma {:induction false} OnlyBusSameWrites(before: History, after: History, slave: int)
    requires OnlyBus(before, after, slave)
    ensures SameWrites(before, after)
    decreases |after|
  {
    if |before| < |after| {
      var shorter := after[..|after| - 1];
      OnlyBusSameWrites(before, shorter, slave);
      assert after == shorter + [after[|after| - 1]];
      SweepsFollowWritesAppend(shorter, after[|after| - 1]);
      forall key, version
        ensures LastWritten(after, key, version) == LastWritten(shorter, key, version)
      {
        LastWrittenAppend(shorter, after[|after| - 1], key, version);
      }
    } else {
      assert before == after;
    }
  }

  lemma MarkSameWrites(log: History, plan: Plan, observed: map<int, int>)
    requires LastWritten(log, plan.roomKey, plan.version) == Some(plan)
    ensures SameWrites(log, log + [Swept(plan, observed)])
  {
    SweepsFollowWritesAppend(log, Swept(plan, observed));
    forall key, version
      ensures LastWritten(log + [Swept(plan, observed)], key, version) == LastWritten(log, key, version)
    {
      LastWrittenAppend(log, Swept(plan, observed), key, version);
    }
  }

  lemma {:induction false} ReadbackSameWrites(env: Environment, s: Settings, plan: Plan, log: History, attempts: nat)
    requires s.Valid() && 1 <= attempts && DistinctAddresses(plan.expectations)
    requires LastWritten(log, plan.roomKey, plan.version) == Some(plan)
    ensures SameWrites(log, Readback(env, s, plan, log, attempts).log)
    decreases attempts
  {
    SweepFacts(env, s, plan.slave, plan.expectations, map[], log);
    var a := Sweep(env, s, plan.slave, plan.expectations, map[], log);
    OnlyBusSameWrites(log, a.log, plan.slave);
    hide LastWritten, SweepsFollowWrites, Sweep;
    if a.result.Observed? {
      var marked := a.log + [Swept(plan, a.result.values)];
      MarkSameWrites(a.log, plan, a.result.values);
      if CompareReadback(plan, a.result.values) != [] && attempts > 1 {
        ReadbackSameWrites(env, s, plan, marked, attempts - 1);
      }
    }
  }

  // The attempt and the history

  /** The attempt's plan is that of the last write phase of its version. */
  ghost predicate TraceOk(key: string, slave: int, st: Local) {
    && SweepsFollowWrites(st.log)
    && (st.room.attempt.Some? && st.room.attempt.value.plan.Some? ==>
        && PlanFits(st.room.attempt.value.plan.value, key, slave, st.room.attempt.value.version)
        && LastWritten(st.log, key, st.room.attempt.value.version) == st.room.attempt.value.plan)
  }

  /** A part of a call keeps that, and touches no other room's write phases. */
  ghost predicate Traced(key: string, slave: int, before: Local, after: Local) {
    && TraceOk(key, slave, after)
    && forall k, v :: k != key ==> LastWritten(after.log, k, v) == LastWritten(before.log, k, v)
  }

  lemma VerifyTraced(env: Environment, s: Settings, intent: Intent, key: string, slave: int, st: Local, terminalOnMismatch: bool)
    requires s.Valid() && TraceOk(key, slave, st) && st.room.attempt.Some? && st.room.attempt.value.plan.Some?
    ensures Traced(key, slave, st, Verify(env, s, intent, st, terminalOnMismatch).st)
    ensures Verify(env, s, intent, st, terminalOnMismatch).st.room.attempt.Some?
  {
    hide Readback, LastWritten, SweepsFollowWrites;
    ReadbackSameWrites(env, s, st.room.attempt.value.plan.value, st.log, s.readbackAttempts);
  }

  lemma ConfirmFreshTraced(env: Environment, s: Settings, intent: Intent, key: string, slave: int, st: Local)
    requires s.Valid() && TraceOk(key, slave, st) && st.room.attempt.Some? && st.room.attempt.value.plan.Some?
    ensures Traced(key, slave, st, ConfirmFresh(env, s, intent, slave, st).st)
  {
    hide Verify, LastWritten, SweepsFollowWrites;
    VerifyTraced(env, s, intent, key, slave, WithAttempt(st, st.room.attempt.value.(phase := VerificationPending)), true);
  }

  lemma BeginWritingTraced(key: string, slave: int, st: Local, plan: Plan)
    requires TraceOk(key, slave, st) && st.room.attempt.Some? && PlanFits(plan, key, slave, st.room.attempt.value.version)
    ensures Traced(key, slave, st, BeginWriting(st, plan))
  {
    SweepsFollowWritesAppend(st.log, WritePhase(plan));
    forall k, v
      ensures k != key ==> LastWritten(st.log + [WritePhase(plan)], k, v) == LastWritten(st.log, k, v)
    {
      LastWrittenAppend(st.log, WritePhase(plan), k, v);
    }
    LastWrittenAppend(st.log, WritePhase(plan), key, plan.version);
  }

  lemma WriteOutTraced(env: Environment, s: Settings, intent: Intent, key: string, slave: int, plan: Plan, st: Local)
    requires s.Valid() && TraceOk(key, slave, st) && st.room.attempt.Some? && PlanFits(plan, key, slave, st.room.attempt.value.version)
    ensures Traced(key, slave, st, WriteOut(env, s, intent, slave, plan, st).st)
  {
    hide ConfirmFresh, WriteAll, LastWritten, SweepsFollowWrites;
    var started := BeginWriting(st, plan);
    BeginWritingTraced(key, slave, st, plan);
    WriteAllFacts(env, s, slave, plan.writes, 0, started.log);
    var w := WriteAll(env, s, slave, plan.writes, 0, started.log);
    OnlyBusSameWrites(started.log, w.log, slave);
    ConfirmFreshTraced(env, s, intent, key, slave, AfterWrites(started, plan, w));
  }

  lemma ExecuteTraced(env: Environment, s: Settings, intent: Intent, key: string, slave: int, st: Local)
    requires s.Valid() && TraceOk(key, slave, st) && CurrentIntent(intent, key, st)
    ensures Traced(key, slave, st, Execute(env, s, intent, slave, st).st)
  {
    hide WriteOut, ReadProfile, PlanOf, LastWritten, SweepsFollowWrites;
    var reset := Reset(st);
    ReadProfileFacts(env, s, slave, reset.log);
    var p := ProfileFor(env, s, intent, slave, reset.log);
    if p.log != reset.log {
      OnlyBusSameWrites(reset.log, p.log, slave);
    }
    var planning := PlanOf(intent, slave, p.result.Device());
    if planning.Planned? {
      PlannedIsSafe(intent, slave, p.result.Device());
      WriteOutTraced(env, s, intent, key, slave, planning.plan, reset.(log := p.log));
    }
  }

  lemma ResumeTraced(env: Environment, s: Settings, intent: Intent, key: string, slave: int, st: Local)
    requires s.Valid() && TraceOk(key, slave, st) && CurrentIntent(intent, key, st)
    ensures Traced(key, slave, st, Resume(env, s, intent, slave, st).st)
  {
    hide Execute, Readback, LastWritten, SweepsFollowWrites;
    ExecuteTraced(env, s, intent, key, slave, st);
    if st.room.attempt.value.plan.Some? {
      VerifyTraced(env, s, intent, key, slave, st, false);
      var v := Verify(env, s, intent, st, false);
      if v.Differs? {
        ExecuteTraced(env, s, intent, key, slave, v.st);
      }
    }
  }

  lemma ApplyToRoomTraced(env: Environment, s: Settings, intent: Intent, key: string, slave: int, st: Local)
    requires s.Valid() && TraceOk(key, slave, st) && intent.roomKey == key
    ensures Traced(key, slave, st, ApplyToRoom(env, s, intent, slave, st).st)
  {
    hide Execute, Resume, LastWritten, SweepsFollowWrites;
    var room := st.room.(seen := Some(intent.version), attempt := Some(NewAttempt(intent)));
    ExecuteTraced(env, s, intent, key, slave, st.(room := room));
    if st.room.attempt.Some? && st.room.attempt.value.version == intent.version {
      ExecuteTraced(env, s, intent, key, slave, st);
      ResumeTraced(env, s, intent, key, slave, st);
    }
  }

  ghost predicate AllTraced(s: Settings, ws: WorkerState) {
    && SweepsFollowWrites(ws.log)
    && forall key :: key in s.slaves ==> TraceOk(key, s.slaves[key], View(ws, key))
  }

  lemma DeliveredSameWrites(log: History, intent: Intent)
    ensures SameWrites(log, log + [Delivered(intent)])
  {
    SweepsFollowWritesAppend(log, Delivered(intent));
    forall key, version
      ensures LastWritten(log + [Delivered(intent)], key, version) == LastWritten(log, key, version)
    {
      LastWrittenAppend(log, Delivered(intent), key, version);
    }
  }

  lemma ApplyKeepsTraces(env: Environment, s: Settings, ws: WorkerState, intent: Intent)
    requires s.Valid() && AllTraced(s, ws)
    ensures AllTraced(s, Apply(env, s, ws, intent).st)
  {
    hide ApplyToRoom, LastWritten, SweepsFollowWrites, PlanFits;
    DeliveredSameWrites(ws.log, intent);
    var delivered := ws.(log := ws.log + [Delivered(intent)]);
    if intent.roomKey in s.slaves {
      var key, slave := intent.roomKey, s.slaves[intent.roomKey];
      assert TraceOk(key, slave, View(ws, key));
      ApplyToRoomTraced(env, s, intent, key, slave, View(delivered, key));
      var after := Apply(env, s, ws, intent).st;
      forall k | k in s.slaves
        ensures TraceOk(k, s.slaves[k], View(after, k))
      {
        assert TraceOk(k, s.slaves[k], View(ws, k));
      }
    }
  }

  lemma {:induction false} RunKeepsTraces(env: Environment, s: Settings, intents: seq<Intent>)
    requires s.Valid()
    ensures AllTraced(s, Run(env, s, IdleWorker, intents))
  {
    if intents != [] {
      RunKeepsTraces(env, s, intents[..|intents| - 1]);
      ApplyKeepsTraces(env, s, Run(env, s, IdleWorker, intents[..|intents| - 1]), intents[|intents| - 1]);
    }
  }

  /** The first write phase of the version after the place. */
  lemma NextWritePhase(log: History, key: string, version: int, i: nat, j: nat) returns (next: nat)
    requires i < j < |log| && IsWritePhase(log[j], key, version)
    ensures i < next <= j && IsWritePhase(log[next], key, version)
    ensures forall x :: i < x < next ==> !IsWritePhase(log[x], key, version)
    decreases j - i
  {
    if IsWritePhase(log[i + 1], key, version) {
      next := i + 1;
    } else {
      next := NextWritePhase(log, key, version, i + 1, j);
    }
  }

  /**
   Verify before rewrite: after each write phase, and before the next one of its version, the worker swept all registers
   of the very plan it had written, in one unbroken run of bus operations, and an answer of the bus differed from it.
   */
  lemma VerifyBeforeRewrite(env: Environment, s: Settings, ws: WorkerState, key: string, version: int, i: nat, j: nat)
    returns (k: nat)
    requires s.Valid() && Reachable(env, s, ws)
    requires i < j < |ws.log| && IsWritePhase(ws.log[i], key, version) && IsWritePhase(ws.log[j], key, version)
    ensures i < k < j && IsMismatchSweep(ws.log[k], key, version)
    ensures ws.log[k].plan == ws.log[i].plan
    ensures forall x :: i < x < k ==> !IsWritePhase(ws.log[x], key, version)
    ensures SweptJustNow(env, ws.log[..k], ws.log[k].plan, ws.log[k].observed)
    ensures exists e :: e in ws.log[k].plan.expectations && Lookup(ws.log[k].observed, e.address) != Some(e.expected)
  {
    var next := NextWritePhase(ws.log, key, version, i, j);
    ReachableIsConsistent(env, s, ws);
    k := RewriteIsVerified(ws.log, key, version, i, next);
    SweepIsHonest(env, ws.log, k);
    var intents :| ws == Run(env, s, IdleWorker, intents);
    RunKeepsTraces(env, s, intents);
    SweepFollowsWrite(ws.log, k);
    LastWrittenIs(ws.log[..k], key, version, i);
    var plan, observed := ws.log[k].plan, ws.log[k].observed;
    var n :| 0 <= n < |plan.expectations| && Lookup(observed, plan.expectations[n].address) != Some(plan.expectations[n].expected);
    assert plan.expectations[n] in plan.expectations;
  }

  // The applied watermark and what calls report

  /** The part of a call keeps the version seen, and moves the applied one only to its own version; surely so when it reports applied. */
  ghost predicate Records(version: int, before: RoomState, after: RoomState, result: Option<ExecutionResult>) {
    && after.seen == before.seen
    && (after.applied == before.applied || after.applied == Some(version))
    && (result.Some? && result.value.status.Applied? ==> after.applied == Some(version))
  }

  lemma VerifyRecords(env: Environment, s: Settings, intent: Intent, st: Local, terminalOnMismatch: bool)
    requires s.Valid() && st.room.attempt.Some? && st.room.attempt.value.plan.Some?
    ensures var v := Verify(env, s, intent, st, terminalOnMismatch);
            && Records(st.room.attempt.value.version, st.room, v.st.room, if v.Verdict? then Some(v.result) else None)
            && v.st.room.attempt.Some? && v.st.room.attempt.value.version == st.room.attempt.value.version
  {
    hide Readback;
  }

  lemma ConfirmFreshRecords(env: Environment, s: Settings, intent: Intent, slave: int, st: Local)
    requires s.Valid() && st.room.attempt.Some? && st.room.attempt.value.plan.Some?
    ensures var r := ConfirmFresh(env, s, intent, slave, st);
            Records(st.room.attempt.value.version, st.room, r.st.room, r.result)
  {
    hide Verify;
    VerifyRecords(env, s, intent, WithAttempt(st, st.room.attempt.value.(phase := VerificationPending)), true);
  }

  lemma WriteOutRecords(env: Environment, s: Settings, intent: Intent, slave: int, plan: Plan, st: Local)
    requires s.Valid() && st.room.attempt.Some?
    ensures var r := WriteOut(env, s, intent, slave, plan, st);
            Records(st.room.attempt.value.version, st.room, r.st.room, r.result)
  {
    hide ConfirmFresh, WriteAll;
    var started := BeginWriting(st, plan);
    ConfirmFreshRecords(env, s, intent, slave, AfterWrites(started, plan, WriteAll(env, s, slave, plan.writes, 0, started.log)));
  }

  lemma ExecuteRecords(env: Environment, s: Settings, intent: Intent, slave: int, st: Local)
    requires s.Valid() && st.room.attempt.Some?
    ensures var r := Execute(env, s, intent, slave, st);
            Records(st.room.attempt.value.version, st.room, r.st.room, r.result)
  {
    hide WriteOut, ProfileFor, PlanOf;
    var reset := Reset(st);
    var p := ProfileFor(env, s, intent, slave, reset.log);
    var planning := PlanOf(intent, slave, p.result.Device());
    if planning.Planned? {
      WriteOutRecords(env, s, intent, slave, planning.plan, reset.(log := p.log));
    }
  }

  lemma ResumeRecords(env: Environment, s: Settings, intent: Intent, slave: int, st: Local)
    requires s.Valid() && st.room.attempt.Some?
    ensures var r := Resume(env, s, intent, slave, st);
            Records(st.room.attempt.value.version, st.room, r.st.room, r.result)
  {
    hide Execute, Verify;
    ExecuteRecords(env, s, intent, slave, st);
    if st.room.attempt.value.plan.Some? {
      VerifyRecords(env, s, intent, st, false);
      ExecuteRecords(env, s, intent, slave, Verify(env, s, intent, st, false).st);
    }
  }

  /** The version seen after a delivery. */
  function Raised(seen: Option<int>, version: int): Option<int> {
    if seen.Some? && version < seen.value then seen else Some(version)
  }

  lemma ApplyToRoomRecords(env: Environment, s: Settings, intent: Intent, slave: int, st: Local)
    requires s.Valid() && RoomInv(st.room, intent.roomKey, slave)
    ensures var r := ApplyToRoom(env, s, intent, slave, st);
            Records(intent.version, st.room.(seen := Raised(st.room.seen, intent.version)), r.st.room, r.result)
  {
    hide Execute, Resume;
    var room := st.room.(seen := Some(intent.version), attempt := Some(NewAttempt(intent)));
    ExecuteRecords(env, s, intent, slave, st.(room := room));
    if st.room.attempt.Some? {
      ExecuteRecords(env, s, intent, slave, st);
      ResumeRecords(env, s, intent, slave, st);
    }
  }

  /** What a delivery does to the room's versions seen and applied. */
  lemma ApplyRecords(env: Environment, s: Settings, ws: WorkerState, intent: Intent)
    requires s.Valid() && WorkerInv(env, s, ws) && intent.roomKey in s.slaves
    ensures var d := Apply(env, s, ws, intent);
            var before := RoomOf(ws, intent.roomKey);
            Records(intent.version, before.(seen := Raised(before.seen, intent.version)), RoomOf(d.st, intent.roomKey), d.result)
  {
    hide ApplyToRoom, GoodLog, Unverified;
    assert Consistent(env, intent.roomKey, s.slaves[intent.roomKey], View(ws, intent.roomKey));
    ApplyToRoomRecords(env, s, intent, s.slaves[intent.roomKey], View(ws.(log := ws.log + [Delivered(intent)]), intent.roomKey));
  }

  /** The highest version among the deliveries for a room. */
  function Highest(intents: seq<Intent>, key: string): Option<int> {
    if intents == [] then None
    else
      var earlier, last := Highest(intents[..|intents| - 1], key), intents[|intents| - 1];
      if last.roomKey == key then Raised(earlier, last.version) else earlier
  }

  lemma {:induction false} HighestIs(intents: seq<Intent>, key: string)
    ensures Highest(intents, key).None? <==> forall i :: 0 <= i < |intents| ==> intents[i].roomKey != key
    ensures forall i :: 0 <= i < |intents| && intents[i].roomKey == key ==>
              Highest(intents, key).Some? && intents[i].version <= Highest(intents, key).value
    ensures Highest(intents, key).Some? ==>
              exists i :: 0 <= i < |intents| && intents[i].roomKey == key && intents[i].version == Highest(intents, key).value
  {
    if intents != [] {
      var earlier := intents[..|intents| - 1];
      HighestIs(earlier, key);
      assert forall i :: 0 <= i < |earlier| ==> earlier[i] == intents[i];
      if Highest(earlier, key).Some? {
        var i :| 0 <= i < |earlier| && earlier[i].roomKey == key && earlier[i].version == Highest(earlier, key).value;
        assert intents[i].version == Highest(earlier, key).value;
      }
    }
  }

  /** A worker that started idle has seen the highest version delivered, and applied none that was not delivered. */
  lemma {:induction false} SeenIsHighest(env: Environment, s: Settings, intents: seq<Intent>, key: string)
    requires s.Valid() && key in s.slaves
    ensures RoomOf(Run(env, s, IdleWorker, intents), key).seen == Highest(intents, key)
    ensures RoomOf(Run(env, s, IdleWorker, intents), key).applied.Some? ==>
              exists i :: 0 <= i < |intents| && intents[i].roomKey == key
                && RoomOf(Run(env, s, IdleWorker, intents), key).applied == Some(intents[i].version)
  {
    hide Apply, WorkerInv;
    if intents != [] {
      var earlier, last := intents[..|intents| - 1], intents[|intents| - 1];
      SeenIsHighest(env, s, earlier, key);
      IdleWorkerIsConsistent(env, s);
      RunKeepsInvariant(env, s, IdleWorker, earlier);
      var before := Run(env, s, IdleWorker, earlier);
      ApplyKeepsInvariant(env, s, before, last);
      if last.roomKey == key {
        ApplyRecords(env, s, before, last);
        assert intents[|intents| - 1].roomKey == key;
      }
      if RoomOf(before, key).applied.Some? {
        var i :| 0 <= i < |earlier| && earlier[i].roomKey == key && RoomOf(before, key).applied == Some(earlier[i].version);
        assert intents[i] == earlier[i];
      }
    }
  }

  /** The bus lets every new version of the room end applied. */
  ghost predicate Obliging(env: Environment, s: Settings, intents: seq<Intent>, key: string)
    requires s.Valid()
  {
    forall i :: 0 <= i < |intents| && intents[i].roomKey == key ==>
      var before := Run(env, s, IdleWorker, intents[..i]);
      NotAbove(Some(intents[i].version), RoomOf(before, key).seen) || ReportsApplied(Apply(env, s, before, intents[i]))
  }

  predicate ReportsApplied(d: Delivery) {
    d.result.Some? && d.result.value.status.Applied?
  }

  /** On an obliging bus the applied version is the highest one delivered. */
  lemma {:induction false} AppliedIsHighest(env: Environment, s: Settings, intents: seq<Intent>, key: string)
    requires s.Valid() && key in s.slaves && Obliging(env, s, intents, key)
    ensures RoomOf(Run(env, s, IdleWorker, intents), key).applied == Highest(intents, key)
  {
    hide Apply, WorkerInv;
    SeenIsHighest(env, s, intents, key);
    if intents != [] {
      var earlier, last := intents[..|intents| - 1], intents[|intents| - 1];
      assert Obliging(env, s, earlier, key) by {
        assert forall i :: 0 <= i < |earlier| ==> earlier[..i] == intents[..i] && earlier[i] == intents[i];
      }
      AppliedIsHighest(env, s, earlier, key);
      SeenIsHighest(env, s, earlier, key);
      var before := Run(env, s, IdleWorker, earlier);
      IdleWorkerIsConsistent(env, s);
      RunKeepsInvariant(env, s, IdleWorker, earlier);
      ApplyKeepsInvariant(env, s, before, last);
      if last.roomKey == key {
        ApplyRecords(env, s, before, last);
        if NotAbove(Some(last.version), RoomOf(before, key).seen) {
          WatermarksMeet(env, s, before, key);
          TerminalDelivery(env, s, before, last);
        } else {
          assert intents[|intents| - 1].roomKey == key;
        }
      }
    }
  }

  lemma WatermarksMeet(env: Environment, s: Settings, ws: WorkerState, key: string)
    requires WorkerInv(env, s, ws) && key in s.slaves && RoomOf(ws, key).applied == RoomOf(ws, key).seen
    ensures RoomOf(ws, key).terminal == RoomOf(ws, key).seen
  {
    hide GoodLog, Unverified;
    assert Consistent(env, key, s.slaves[key], View(ws, key));
  }
}
