/**
 Theorems about whole runs of the entrance worker, for every bus, every clock and every sequence of deliveries.
 */
module ProtocolRuns {
  import opened Arithmetic
  import opened Domain
  import opened Planner
  import opened Protocol
  import opened ProtocolSafety

  ghost function CallCost(s: Settings): nat {
    5 * s.operationAttempts + 2 * ReadbackCost(s)
  }

  // One delivery to a room

  /** What a delivery of a version does to a room and to the rest. */
  ghost predicate RoomStep(env: Environment, s: Settings, key: string, slave: int, version: int, before: Local, after: Local) {
    && Consistent(env, key, slave, after)
    && NotAbove(before.room.seen, after.room.seen)
    && NotAbove(before.room.terminal, after.room.terminal)
    && NotAbove(before.room.applied, after.room.applied)
    && OwnEvents(before.log, after.log, slave, key, version)
    && OthersKept(slave, before.failures, after.failures)
    && BusOps(after.log) <= BusOps(before.log) + CallCost(s)
  }

  lemma NewVersionKeeps(env: Environment, key: string, slave: int, st: Local, intent: Intent)
    requires Consistent(env, key, slave, st) && intent.roomKey == key
    requires !NotAbove(Some(intent.version), st.room.seen)
    ensures var room := st.room.(seen := Some(intent.version), attempt := Some(NewAttempt(intent)));
            && Consistent(env, key, slave, st.(room := room))
            && !Unverified(st.log, key, intent.version)
  {
  }

  lemma ApplyToRoomFacts(env: Environment, s: Settings, intent: Intent, key: string, slave: int, st: Local)
    requires s.Valid() && intent.roomKey == key && Consistent(env, key, slave, st)
    ensures var r := ApplyToRoom(env, s, intent, slave, st);
            && RoomStep(env, s, key, slave, intent.version, st, r.st)
            && Answers(intent, r.result)
    ensures !AttemptMissing(st.room, intent) && !ResultMissing(st.room)
  {
    hide Unverified, NoBlindRewrite, HonestSweeps, BusOps, Execute, Resume, Times;
    if st.room.seen.Some? && intent.version < st.room.seen.value {
    } else if st.room.seen.None? || intent.version > st.room.seen.value {
      var room := st.room.(seen := Some(intent.version), attempt := Some(NewAttempt(intent)));
      NewVersionKeeps(env, key, slave, st, intent);
      ExecuteFine(env, s, intent, key, slave, st.(room := room));
    } else {
      var attempt := st.room.attempt.value;
      if attempt.phase.Writing? || attempt.phase.VerificationPending? {
        ResumeFine(env, s, intent, key, slave, st);
      } else if attempt.phase.Retryable? {
        ExecuteFine(env, s, intent, key, slave, st);
      }
    }
  }

  // The invariant of the worker

  ghost function View(ws: WorkerState, key: string): Local {
    Local(RoomOf(ws, key), ws.failures, ws.log)
  }

  ghost predicate WorkerInv(env: Environment, s: Settings, ws: WorkerState) {
    && ws.rooms.Keys <= s.slaves.Keys
    && GoodLog(env, ws.log)
    && forall key :: key in s.slaves ==> Consistent(env, key, s.slaves[key], View(ws, key))
  }

  lemma DeliveredKeeps(env: Environment, key: string, slave: int, st: Local, intent: Intent)
    requires Consistent(env, key, slave, st)
    ensures Consistent(env, key, slave, st.(log := st.log + [Delivered(intent)]))
    ensures BusOps(st.log + [Delivered(intent)]) == BusOps(st.log)
  {
    var e := Delivered(intent);
    NoBlindRewriteAppend(st.log, e);
    HonestSweepsAppend(env, st.log, e);
    BusOpsAppend(st.log, e);
    forall v
      ensures Unverified(st.log + [e], key, v) == Unverified(st.log, key, v)
    {
      UnverifiedAppend(st.log, e, key, v);
    }
  }

  lemma OtherRoomKeeps(env: Environment, key: string, slave: int, version: int, other: string, otherSlave: int,
                       room: RoomState, before: Local, after: Local)
    requires key != other
    requires Consistent(env, other, otherSlave, before.(room := room))
    requires GoodLog(env, after.log) && OwnEvents(before.log, after.log, slave, key, version)
    ensures Consistent(env, other, otherSlave, after.(room := room))
  {
    forall v
      ensures Unverified(after.log, other, v) == Unverified(before.log, other, v)
    {
      OwnEventsFrame(before.log, after.log, slave, key, version, other, v);
    }
    if room.attempt.Some? {
      OwnEventsFrame(before.log, after.log, slave, key, version, other, room.attempt.value.version);
    }
  }

  /** One delivery keeps the invariant, lets the watermarks only grow, and touches one room and one slave. */
  ghost predicate WorkerStep(env: Environment, s: Settings, ws: WorkerState, intent: Intent, d: Delivery) {
    && WorkerInv(env, s, d.st)
    && Answers(intent, d.result)
    && (forall key :: key != intent.roomKey ==> RoomOf(d.st, key) == RoomOf(ws, key))
    && NotAbove(RoomOf(ws, intent.roomKey).seen, RoomOf(d.st, intent.roomKey).seen)
    && NotAbove(RoomOf(ws, intent.roomKey).terminal, RoomOf(d.st, intent.roomKey).terminal)
    && NotAbove(RoomOf(ws, intent.roomKey).applied, RoomOf(d.st, intent.roomKey).applied)
    && BusOps(d.st.log) <= BusOps(ws.log) + CallCost(s)
    && ws.log + [Delivered(intent)] <= d.st.log
    && (if intent.roomKey in s.slaves then
          var slave := s.slaves[intent.roomKey];
          && OwnEvents(ws.log + [Delivered(intent)], d.st.log, slave, intent.roomKey, intent.version)
          && OthersKept(slave, ws.failures, d.st.failures)
        else
          d.st == ws.(log := ws.log + [Delivered(intent)]))
  }

  lemma ApplyKeepsInvariant(env: Environment, s: Settings, ws: WorkerState, intent: Intent)
    requires s.Valid() && WorkerInv(env, s, ws)
    ensures WorkerStep(env, s, ws, intent, Apply(env, s, ws, intent))
  {
    hide Unverified, NoBlindRewrite, HonestSweeps, BusOps, ApplyToRoom, Times, ReadbackCost, RoomInv;
    var delivered := ws.(log := ws.log + [Delivered(intent)]);
    DeliveredGood(env, ws.log, intent);
    forall key | key in s.slaves
      ensures Consistent(env, key, s.slaves[key], View(delivered, key))
    {
      DeliveredKeeps(env, key, s.slaves[key], View(ws, key), intent);
    }
    if intent.roomKey in s.slaves {
      var key, slave := intent.roomKey, s.slaves[intent.roomKey];
      var st := View(delivered, key);
      ApplyToRoomFacts(env, s, intent, key, slave, st);
      var after := ApplyToRoom(env, s, intent, slave, st).st;
      var now := Apply(env, s, ws, intent).st;
      forall other | other in s.slaves
        ensures Consistent(env, other, s.slaves[other], View(now, other))
      {
        if other != key {
          OtherRoomKeeps(env, key, slave, intent.version, other, s.slaves[other], RoomOf(ws, other), View(delivered, other), after);
        }
      }
    }
  }

  lemma DeliveredGood(env: Environment, log: History, intent: Intent)
    requires GoodLog(env, log)
    ensures GoodLog(env, log + [Delivered(intent)])
    ensures BusOps(log + [Delivered(intent)]) == BusOps(log)
  {
    NoBlindRewriteAppend(log, Delivered(intent));
    HonestSweepsAppend(env, log, Delivered(intent));
    BusOpsAppend(log, Delivered(intent));
  }

  lemma IdleWorkerIsConsistent(env: Environment, s: Settings)
    ensures WorkerInv(env, s, IdleWorker)
  {
  }

  lemma {:induction false} RunKeepsInvariant(env: Environment, s: Settings, ws: WorkerState, intents: seq<Intent>)
    requires s.Valid() && WorkerInv(env, s, ws)
    ensures WorkerInv(env, s, Run(env, s, ws, intents))
    ensures ws.log <= Run(env, s, ws, intents).log
  {
    if intents != [] {
      var before := intents[..|intents| - 1];
      RunKeepsInvariant(env, s, ws, before);
      ApplyKeepsInvariant(env, s, Run(env, s, ws, before), intents[|intents| - 1]);
    }
  }

  // Theorems over runs

  /** The reachable states: what a worker is in after some deliveries. */
  ghost predicate Reachable(env: Environment, s: Settings, ws: WorkerState)
    requires s.Valid()
  {
    exists intents :: ws == Run(env, s, IdleWorker, intents)
  }

  lemma ReachableIsConsistent(env: Environment, s: Settings, ws: WorkerState)
    requires s.Valid() && Reachable(env, s, ws)
    ensures WorkerInv(env, s, ws)
  {
    var intents :| ws == Run(env, s, IdleWorker, intents);
    IdleWorkerIsConsistent(env, s);
    RunKeepsInvariant(env, s, IdleWorker, intents);
  }

  /**
   Wherever a call stops, the watermarks are ordered, the attempt is that of the highest version seen,
   it is terminal exactly when that version is, with a cached result then, and an attempt that may have
   written has its plan; so neither the source's RuntimeError nor its assertions can fire.
   */
  lemma WatermarksInReachableStates(env: Environment, s: Settings, ws: WorkerState, key: string)
    requires s.Valid() && Reachable(env, s, ws) && key in s.slaves
    ensures var room := RoomOf(ws, key);
            && NotAbove(room.applied, room.terminal)
            && NotAbove(room.terminal, room.seen)
            && (room.seen.Some? <==> room.attempt.Some?)
            && (room.attempt.Some? ==>
                && room.seen == Some(room.attempt.value.version)
                && (room.attempt.value.phase.Terminal? <==> room.terminal == room.seen)
                && (room.attempt.value.phase.Terminal? ==> room.attempt.value.cached.Some?)
                && (room.attempt.value.phase.Writing? || room.attempt.value.phase.VerificationPending? ==>
                    room.attempt.value.plan.Some?))
    ensures forall intent: Intent :: !AttemptMissing(RoomOf(ws, key), intent)
    ensures !ResultMissing(RoomOf(ws, key))
  {
    ReachableIsConsistent(env, s, ws);
    assert Consistent(env, key, s.slaves[key], View(ws, key));
  }

  lemma {:induction false} RunMonotone(env: Environment, s: Settings, ws: WorkerState, intents: seq<Intent>, key: string)
    requires s.Valid() && WorkerInv(env, s, ws)
    ensures var before, after := RoomOf(ws, key), RoomOf(Run(env, s, ws, intents), key);
            && NotAbove(before.seen, after.seen)
            && NotAbove(before.terminal, after.terminal)
            && NotAbove(before.applied, after.applied)
  {
    hide WorkerInv, Apply;
    if intents != [] {
      var earlier := intents[..|intents| - 1];
      RunMonotone(env, s, ws, earlier, key);
      RunKeepsInvariant(env, s, ws, earlier);
      ApplyKeepsInvariant(env, s, Run(env, s, ws, earlier), intents[|intents| - 1]);
    }
  }

  lemma TerminalRoomAnswers(env: Environment, s: Settings, intent: Intent, slave: int, st: Local)
    requires s.Valid() && RoomInv(st.room, intent.roomKey, slave)
    requires NotAbove(Some(intent.version), st.room.terminal)
    ensures ApplyToRoom(env, s, intent, slave, st).st == st
    ensures ApplyToRoom(env, s, intent, slave, st).result.Some?
  {
    hide Execute, Resume;
  }

  lemma TerminalDelivery(env: Environment, s: Settings, ws: WorkerState, intent: Intent)
    requires s.Valid() && WorkerInv(env, s, ws) && intent.roomKey in s.slaves
    requires NotAbove(Some(intent.version), RoomOf(ws, intent.roomKey).terminal)
    ensures var d := Apply(env, s, ws, intent);
            && d.st.log == ws.log + [Delivered(intent)]
            && d.st.failures == ws.failures
            && RoomOf(d.st, intent.roomKey) == RoomOf(ws, intent.roomKey)
            && d.result.Some?
  {
    hide GoodLog, Unverified, ApplyToRoom;
    assert Consistent(env, intent.roomKey, s.slaves[intent.roomKey], View(ws, intent.roomKey));
    TerminalRoomAnswers(env, s, intent, s.slaves[intent.roomKey],
                        View(ws.(log := ws.log + [Delivered(intent)]), intent.roomKey));
  }

  /** Once a version is terminal for a room, no later delivery of it or of an older one reaches the bus. */
  lemma TerminalOnce(env: Environment, s: Settings, ws: WorkerState, intents: seq<Intent>, intent: Intent)
    requires s.Valid() && WorkerInv(env, s, ws) && intent.roomKey in s.slaves
    requires NotAbove(Some(intent.version), RoomOf(ws, intent.roomKey).terminal)
    ensures var later := Run(env, s, ws, intents);
            var d := Apply(env, s, later, intent);
            && d.st.log == later.log + [Delivered(intent)]
            && d.st.failures == later.failures
            && RoomOf(d.st, intent.roomKey) == RoomOf(later, intent.roomKey)
            && d.result.Some?
  {
    hide WorkerInv, Apply, Run;
    RunMonotone(env, s, ws, intents, intent.roomKey);
    RunKeepsInvariant(env, s, ws, intents);
    TerminalDelivery(env, s, Run(env, s, ws, intents), intent);
  }

  ghost predicate NothingNewer(intents: seq<Intent>, key: string, version: int) {
    forall i :: 0 <= i < |intents| && intents[i].roomKey == key ==> intents[i].version <= version
  }

  lemma {:induction false} TerminalRoomRests(env: Environment, s: Settings, ws: WorkerState, intents: seq<Intent>, key: string, version: int)
    requires s.Valid() && WorkerInv(env, s, ws) && key in s.slaves
    requires RoomOf(ws, key).terminal == RoomOf(ws, key).seen == Some(version)
    requires NothingNewer(intents, key, version)
    ensures RoomOf(Run(env, s, ws, intents), key) == RoomOf(ws, key)
  {
    if intents != [] {
      var earlier, last := intents[..|intents| - 1], intents[|intents| - 1];
      TerminalRoomRests(env, s, ws, earlier, key, version);
      RunKeepsInvariant(env, s, ws, earlier);
      var before := Run(env, s, ws, earlier);
      ApplyKeepsInvariant(env, s, before, last);
      if last.roomKey == key {
        assert intents[|intents| - 1].version <= version;
        TerminalDelivery(env, s, before, last);
      }
    }
  }

  /**
   While a terminal version is the highest one seen, every redelivery of the same payload returns the
   first terminal result, with the redelivered correlation id.
   */
  lemma TerminalResultIsReplayed(env: Environment, s: Settings, ws: WorkerState, intents: seq<Intent>, intent: Intent)
    requires s.Valid() && WorkerInv(env, s, ws) && intent.roomKey in s.slaves
    requires RoomOf(ws, intent.roomKey).terminal == RoomOf(ws, intent.roomKey).seen == Some(intent.version)
    requires RoomOf(ws, intent.roomKey).attempt.value.fingerprint == intent.StablePayload()
    requires NothingNewer(intents, intent.roomKey, intent.version)
    ensures var first := RoomOf(ws, intent.roomKey).attempt.value.cached;
            && first.Some?
            && Apply(env, s, Run(env, s, ws, intents), intent).result == Some(first.value.(correlationId := intent.correlationId))
  {
    TerminalRoomRests(env, s, ws, intents, intent.roomKey, intent.version);
    assert Consistent(env, intent.roomKey, s.slaves[intent.roomKey], View(ws, intent.roomKey));
  }

  /** A single call costs at most m(5 + 6r) bus operations. */
  lemma CostOfCall(env: Environment, s: Settings, ws: WorkerState, intent: Intent)
    requires s.Valid() && WorkerInv(env, s, ws)
    ensures BusOps(Apply(env, s, ws, intent).st.log)
         <= BusOps(ws.log) + s.operationAttempts * (5 + 6 * s.readbackAttempts)
  {
    ApplyKeepsInvariant(env, s, ws, intent);
    TimesIsProduct(s.readbackAttempts, 3 * s.operationAttempts);
    var m, r := s.operationAttempts, s.readbackAttempts;
    assert 5 * m + 2 * (r * (3 * m)) == m * (5 + 6 * r);
  }

  /** A delivery for one room addresses only its own slave and leaves every other slave's failures alone. */
  lemma IsolatedSlaves(env: Environment, s: Settings, ws: WorkerState, intent: Intent, otherSlave: int)
    requires s.Valid() && WorkerInv(env, s, ws) && intent.roomKey in s.slaves && otherSlave != s.slaves[intent.roomKey]
    ensures var d := Apply(env, s, ws, intent);
            && ws.log <= d.st.log
            && (forall i :: |ws.log| <= i < |d.st.log| && d.st.log[i].Bus? ==> d.st.log[i].op.slave == s.slaves[intent.roomKey])
            && FailureOf(d.st.failures, otherSlave) == FailureOf(ws.failures, otherSlave)
  {
    ApplyKeepsInvariant(env, s, ws, intent);
    var d := Apply(env, s, ws, intent);
    var delivered := ws.log + [Delivered(intent)];
    forall i | |ws.log| <= i < |d.st.log| && d.st.log[i].Bus?
      ensures d.st.log[i].op.slave == s.slaves[intent.roomKey]
    {
      assert d.st.log[|ws.log|] == delivered[|ws.log|];
      if i > |ws.log| {
        assert OwnEvent(d.st.log[i], s.slaves[intent.roomKey], intent.roomKey, intent.version);
      }
    }
  }

  lemma CoolingRoomRests(env: Environment, s: Settings, intent: Intent, slave: int, st: Local)
    requires s.Valid() && RoomInv(st.room, intent.roomKey, slave)
    requires CoolingDown(st.failures, slave, env.clock(st.log))
    ensures ApplyToRoom(env, s, intent, slave, st).st.log == st.log
    ensures ApplyToRoom(env, s, intent, slave, st).st.failures == st.failures
  {
    hide Prepare, Verify, AfterVerification;
  }

  /** While a slave cools down, deliveries for its room do not reach the bus, and its failures stay as they are. */
  lemma CooldownSparesTheBus(env: Environment, s: Settings, ws: WorkerState, intent: Intent)
    requires s.Valid() && WorkerInv(env, s, ws) && intent.roomKey in s.slaves
    requires CoolingDown(ws.failures, s.slaves[intent.roomKey], env.clock(ws.log + [Delivered(intent)]))
    ensures var d := Apply(env, s, ws, intent);
            d.st.log == ws.log + [Delivered(intent)] && d.st.failures == ws.failures
  {
    hide GoodLog, Unverified, ApplyToRoom;
    assert Consistent(env, intent.roomKey, s.slaves[intent.roomKey], View(ws, intent.roomKey));
    CoolingRoomRests(env, s, intent, s.slaves[intent.roomKey],
                     View(ws.(log := ws.log + [Delivered(intent)]), intent.roomKey));
  }

  // The cooldown

  /** The delay grows with the failures, between the base and the maximum. */
  lemma CooldownBounds(s: Settings, n: nat, more: nat)
    requires s.Valid() && 1 <= n <= more
    ensures s.retryBase <= CooldownDelay(s, n) <= CooldownDelay(s, more) <= s.retryMax
  {
    var a, b := Pow2(Min(n - 1, 16)), Pow2(Min(more - 1, 16));
    Pow2Monotone(Min(n - 1, 16), Min(more - 1, 16));
    ScaleMonotone(s.retryBase, 1, a);
    ScaleMonotone(s.retryBase, a, b);
  }

  /** A call records at most one failure or one success of its slave, at the end of the call. */
  ghost predicate FailureMove(env: Environment, s: Settings, slave: int, before: Local, after: Local) {
    || after.failures == before.failures
    || after.failures == before.failures - {slave}
    || var count := FailureOf(before.failures, slave).count + 1;
       after.failures == before.failures[slave := Failure(count, Some(env.clock(after.log) + CooldownDelay(s, count)))]
  }

  lemma ConfirmFreshMoves(env: Environment, s: Settings, intent: Intent, slave: int, st: Local)
    requires s.Valid() && st.room.attempt.Some? && st.room.attempt.value.plan.Some?
    ensures FailureMove(env, s, slave, st, ConfirmFresh(env, s, intent, slave, st).st)
  {
    hide Readback;
  }

  lemma WriteOutMoves(env: Environment, s: Settings, intent: Intent, slave: int, plan: Plan, st: Local)
    requires s.Valid() && st.room.attempt.Some?
    ensures FailureMove(env, s, slave, st, WriteOut(env, s, intent, slave, plan, st).st)
  {
    hide ConfirmFresh, WriteAll;
    var started := BeginWriting(st, plan);
    var w := WriteAll(env, s, slave, plan.writes, 0, started.log);
    ConfirmFreshMoves(env, s, intent, slave, AfterWrites(started, plan, w));
  }

  lemma ExecuteMoves(env: Environment, s: Settings, intent: Intent, slave: int, st: Local)
    requires s.Valid() && st.room.attempt.Some?
    ensures FailureMove(env, s, slave, st, Execute(env, s, intent, slave, st).st)
  {
    hide WriteOut, ProfileFor, PlanOf;
    var reset := Reset(st);
    var p := ProfileFor(env, s, intent, slave, reset.log);
    var planning := PlanOf(intent, slave, p.result.Device());
    if planning.Planned? {
      WriteOutMoves(env, s, intent, slave, planning.plan, reset.(log := p.log));
    }
  }

  lemma ResumeMoves(env: Environment, s: Settings, intent: Intent, slave: int, st: Local)
    requires s.Valid() && st.room.attempt.Some?
    ensures FailureMove(env, s, slave, st, Resume(env, s, intent, slave, st).st)
  {
    hide Execute, Readback, CooldownDelay, CompareReadback;
    ExecuteMoves(env, s, intent, slave, st);
    if st.room.attempt.value.plan.Some? {
      var v := Verify(env, s, intent, st, false);
      ExecuteMoves(env, s, intent, slave, v.st);
    }
  }

  lemma ApplyToRoomMoves(env: Environment, s: Settings, intent: Intent, slave: int, st: Local)
    requires s.Valid()
    ensures FailureMove(env, s, slave, st, ApplyToRoom(env, s, intent, slave, st).st)
  {
    hide Execute, Resume;
    var room := st.room.(seen := Some(intent.version), attempt := Some(NewAttempt(intent)));
    ExecuteMoves(env, s, intent, slave, st.(room := room));
    if st.room.attempt.Some? {
      ExecuteMoves(env, s, intent, slave, st);
      ResumeMoves(env, s, intent, slave, st);
    }
  }

  /** Every slave that has failed waits for the delay of its number of failures, counted from some past moment. */
  ghost predicate DelaysFit(env: Environment, s: Settings, failures: Failures, log: History) {
    forall slave :: slave in failures ==>
      && 1 <= failures[slave].count
      && exists n :: 0 <= n <= |log|
           && failures[slave].retryAfter == Some(env.clock(log[..n]) + CooldownDelay(s, failures[slave].count))
  }

  lemma DelaysLast(env: Environment, s: Settings, slave: int, before: Local, after: Local)
    requires DelaysFit(env, s, before.failures, before.log) && before.log <= after.log
    requires FailureMove(env, s, slave, before, after)
    ensures DelaysFit(env, s, after.failures, after.log)
  {
    forall x | x in after.failures
      ensures 1 <= after.failures[x].count
      ensures exists n :: 0 <= n <= |after.log|
                && after.failures[x].retryAfter == Some(env.clock(after.log[..n]) + CooldownDelay(s, after.failures[x].count))
    {
      if x in before.failures && after.failures[x] == before.failures[x] {
        var n :| 0 <= n <= |before.log|
          && before.failures[x].retryAfter == Some(env.clock(before.log[..n]) + CooldownDelay(s, before.failures[x].count));
        assert after.log[..n] == before.log[..n];
      } else {
        assert after.log[..|after.log|] == after.log;
      }
    }
  }

  lemma {:induction false} DelaysInRuns(env: Environment, s: Settings, intents: seq<Intent>)
    requires s.Valid()
    ensures var ws := Run(env, s, IdleWorker, intents);
            DelaysFit(env, s, ws.failures, ws.log)
  {
    if intents != [] {
      hide ApplyToRoom, WorkerInv;
      var earlier, intent := intents[..|intents| - 1], intents[|intents| - 1];
      DelaysInRuns(env, s, earlier);
      var ws := Run(env, s, IdleWorker, earlier);
      IdleWorkerIsConsistent(env, s);
      RunKeepsInvariant(env, s, IdleWorker, earlier);
      ApplyKeepsInvariant(env, s, ws, intent);
      var before := View(ws, intent.roomKey);
      var delivered := before.(log := ws.log + [Delivered(intent)]);
      DelaysLast(env, s, 0, before, delivered);
      if intent.roomKey in s.slaves {
        var slave := s.slaves[intent.roomKey];
        ApplyToRoomMoves(env, s, intent, slave, delivered);
        DelaysLast(env, s, slave, delivered, ApplyToRoom(env, s, intent, slave, delivered).st);
      }
    }
  }
}
