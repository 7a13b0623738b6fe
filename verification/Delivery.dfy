/**
 From the hotel's database to the register bus: recalculation, outbox and entrance worker together, under
 every interleaving of commits, publishing, crashes, redeliveries in any order, and restarts of the worker.
 */
module Delivery {
  import opened Domain
  import opened Store
  import Planner
  import Protocol
  import ProtocolSafety
  import ProtocolRuns
  import HotelRuns
  import Outbox
  import OutboxRuns

  /** What stays fixed in a run. */
  datatype Setup = Setup(rooms: seq<Room>, policy: Policy, retry: Outbox.RetryPolicy, settings: Protocol.Settings)
  {
    ghost predicate Valid() {
      policy.Valid() && HotelRuns.RegistryOk(rooms) && settings.Valid()
    }
  }

  /** The bus and the clock of a worker belong to one life of it. */
  datatype System = System(
    tables: Tables,
    outbox: OutboxRuns.OutboxState,
    env: Protocol.Environment,
    worker: Protocol.WorkerState)

  datatype Move =
    | HotelMove(step: HotelRuns.Step, ids: seq<int>, at: int)
    | OutboxMove(outboxStep: OutboxRuns.OutboxStep)
    | Deliver(place: nat)
    | Restart(env: Protocol.Environment)

  function NewMessages(setup: Setup, sys: System, step: HotelRuns.Step): seq<Message> {
    var after := HotelRuns.Advance(setup.rooms, setup.policy, sys.tables, step).outbox;
    if |sys.tables.outbox| <= |after| then after[|sys.tables.outbox|..] else []
  }

  /** The messages of a transaction become pending rows in that transaction; the rest of the outbox's steps are its worker's. */
  ghost predicate Allowed(setup: Setup, sys: System, move: Move) {
    match move
    case HotelMove(step, ids, at) =>
      && HotelRuns.OnTime(setup.rooms, sys.tables, step)
      && OutboxRuns.Enabled(sys.outbox, OutboxRuns.Enqueue(ids, NewMessages(setup, sys, step), at))
    case OutboxMove(step) => !step.Enqueue? && OutboxRuns.Enabled(sys.outbox, step)
    case Deliver(place) => place < |sys.outbox.log| && sys.outbox.log[place].message.IntentState?
    case Restart(_) => true
  }

  /** Whatever was handed to the broker, acknowledged or not, can be delivered any number of times and in any order. */
  function Next(setup: Setup, sys: System, move: Move): System
    requires setup.settings.Valid()
  {
    match move
    case HotelMove(step, ids, at) =>
      sys.(tables := HotelRuns.Advance(setup.rooms, setup.policy, sys.tables, step),
           outbox := OutboxRuns.Take(setup.retry, sys.outbox, OutboxRuns.Enqueue(ids, NewMessages(setup, sys, step), at)))
    case OutboxMove(step) => sys.(outbox := OutboxRuns.Take(setup.retry, sys.outbox, step))
    case Deliver(place) =>
      if place < |sys.outbox.log| && sys.outbox.log[place].message.IntentState? then
        sys.(worker := Protocol.Apply(sys.env, setup.settings, sys.worker, sys.outbox.log[place].message.intent).st)
      else sys
    case Restart(env) => sys.(env := env, worker := Protocol.IdleWorker)
  }

  function After(setup: Setup, sys: System, moves: seq<Move>): System
    requires setup.settings.Valid()
  {
    if moves == [] then sys
    else Next(setup, After(setup, sys, moves[..|moves| - 1]), moves[|moves| - 1])
  }

  ghost predicate AllAllowed(setup: Setup, sys: System, moves: seq<Move>)
    requires setup.settings.Valid()
  {
    forall i :: 0 <= i < |moves| ==> Allowed(setup, After(setup, sys, moves[..i]), moves[i])
  }

  function InitialSystem(env: Protocol.Environment): System {
    System(EmptyTables, OutboxRuns.EmptyOutbox, env, Protocol.IdleWorker)
  }

  // What the worker keeps of a delivered payload

  /** The attempt's payload is the one just delivered or the one it had. */
  ghost predicate Origin(intent: Intent, before: Protocol.RoomState, after: Protocol.RoomState) {
    after.attempt.Some? ==>
      || (before.attempt.Some?
          && after.attempt.value.version == before.attempt.value.version
          && after.attempt.value.fingerprint == before.attempt.value.fingerprint)
      || (after.attempt.value.version == intent.version && after.attempt.value.fingerprint == intent.StablePayload())
  }

  lemma AttemptOrigin(env: Protocol.Environment, s: Protocol.Settings, intent: Intent, key: string, slave: int, st: Protocol.Local)
    requires s.Valid() && intent.roomKey == key && ProtocolSafety.Consistent(env, key, slave, st)
    ensures Origin(intent, st.room, Protocol.ApplyToRoom(env, s, intent, slave, st).st.room)
  {
    hide Protocol.Execute, Protocol.Resume, ProtocolSafety.Unverified, ProtocolSafety.GoodLog, ProtocolSafety.BusOps, ProtocolSafety.Times;
    if st.room.seen.Some? && intent.version < st.room.seen.value {
    } else if st.room.seen.None? || intent.version > st.room.seen.value {
      var room := st.room.(seen := Some(intent.version), attempt := Some(Protocol.NewAttempt(intent)));
      ProtocolRuns.NewVersionKeeps(env, key, slave, st, intent);
      ProtocolSafety.ExecuteFine(env, s, intent, key, slave, st.(room := room));
    } else {
      var attempt := st.room.attempt.value;
      if attempt.phase.Writing? || attempt.phase.VerificationPending? {
        ProtocolSafety.ResumeFine(env, s, intent, key, slave, st);
      } else if attempt.phase.Retryable? {
        ProtocolSafety.ExecuteFine(env, s, intent, key, slave, st);
      }
    }
  }

  ghost predicate Clashes(result: Option<Protocol.ExecutionResult>) {
    result.Some? && result.value.message.PayloadClash?
  }

  ghost predicate Stale(result: Option<Protocol.ExecutionResult>) {
    result.Some? && result.value.message.OlderThanSeen?
  }

  lemma VerifyAnswersTheAttempt(env: Protocol.Environment, s: Protocol.Settings, intent: Intent, st: Protocol.Local, terminalOnMismatch: bool)
    requires s.Valid() && st.room.attempt.Some? && st.room.attempt.value.plan.Some?
    ensures var v := Protocol.Verify(env, s, intent, st, terminalOnMismatch);
            v.Verdict? ==> !v.result.message.PayloadClash? && !v.result.message.OlderThanSeen?
  {
  }

  lemma WriteOutAnswersTheAttempt(env: Protocol.Environment, s: Protocol.Settings, intent: Intent, slave: int, plan: Planner.Plan, st: Protocol.Local)
    requires s.Valid() && st.room.attempt.Some?
    ensures !Clashes(Protocol.WriteOut(env, s, intent, slave, plan, st).result)
    ensures !Stale(Protocol.WriteOut(env, s, intent, slave, plan, st).result)
  {
    hide Protocol.Verify, Protocol.WriteAll;
    var started := Protocol.BeginWriting(st, plan);
    var written := Protocol.AfterWrites(started, plan, Protocol.WriteAll(env, s, slave, plan.writes, 0, started.log));
    var pending := Protocol.WithAttempt(written, written.room.attempt.value.(phase := Protocol.VerificationPending));
    VerifyAnswersTheAttempt(env, s, intent, pending, true);
  }

  lemma ExecuteAnswersTheAttempt(env: Protocol.Environment, s: Protocol.Settings, intent: Intent, slave: int, st: Protocol.Local)
    requires s.Valid() && st.room.attempt.Some?
    ensures !Clashes(Protocol.Execute(env, s, intent, slave, st).result)
    ensures !Stale(Protocol.Execute(env, s, intent, slave, st).result)
  {
    hide Protocol.WriteOut, Protocol.ProfileFor, Planner.PlanOf;
    var reset := Protocol.Reset(st);
    var p := Protocol.ProfileFor(env, s, intent, slave, reset.log);
    var planning := Planner.PlanOf(intent, slave, p.result.Device());
    if planning.Planned? {
      WriteOutAnswersTheAttempt(env, s, intent, slave, planning.plan, reset.(log := p.log));
    }
  }

  lemma ResumeAnswersTheAttempt(env: Protocol.Environment, s: Protocol.Settings, intent: Intent, slave: int, st: Protocol.Local)
    requires s.Valid() && st.room.attempt.Some?
    ensures !Clashes(Protocol.Resume(env, s, intent, slave, st).result)
  {
    hide Protocol.Execute, Protocol.Readback;
    ExecuteAnswersTheAttempt(env, s, intent, slave, st);
    if st.room.attempt.value.plan.Some? {
      VerifyAnswersTheAttempt(env, s, intent, st, false);
      ExecuteAnswersTheAttempt(env, s, intent, slave, Protocol.Verify(env, s, intent, st, false).st);
    }
  }

  /** The worker rejects a version for another payload exactly when it is the highest one seen and came with another payload. */
  lemma ClashExactly(env: Protocol.Environment, s: Protocol.Settings, ws: Protocol.WorkerState, intent: Intent)
    requires s.Valid() && ProtocolRuns.WorkerInv(env, s, ws)
    ensures Clashes(Protocol.Apply(env, s, ws, intent).result) <==>
            && intent.roomKey in s.slaves
            && var attempt := Protocol.RoomOf(ws, intent.roomKey).attempt;
               attempt.Some? && attempt.value.version == intent.version && attempt.value.fingerprint != intent.StablePayload()
  {
    hide ProtocolSafety.GoodLog, ProtocolSafety.Unverified, Protocol.Execute, Protocol.Resume;
    if intent.roomKey in s.slaves {
      var slave := s.slaves[intent.roomKey];
      assert ProtocolSafety.Consistent(env, intent.roomKey, slave, ProtocolRuns.View(ws, intent.roomKey));
      var st := ProtocolRuns.View(ws.(log := ws.log + [Protocol.Delivered(intent)]), intent.roomKey);
      var room := st.room.(seen := Some(intent.version), attempt := Some(Protocol.NewAttempt(intent)));
      ExecuteAnswersTheAttempt(env, s, intent, slave, st.(room := room));
      if st.room.attempt.Some? {
        ExecuteAnswersTheAttempt(env, s, intent, slave, st);
        ResumeAnswersTheAttempt(env, s, intent, slave, st);
      }
    }
  }

  // The invariant of the whole system

  /** The outbox holds an intent with this room, version and payload. */
  ghost predicate Issued(outbox: seq<Message>, key: string, version: int, payload: Intent) {
    exists i :: 0 <= i < |outbox| && outbox[i].IntentState? && outbox[i].intent.roomKey == key
      && outbox[i].intent.version == version && outbox[i].intent.StablePayload() == payload
  }

  ghost predicate WorkerKnowsIssued(outbox: seq<Message>, ws: Protocol.WorkerState) {
    forall key :: var attempt := Protocol.RoomOf(ws, key).attempt;
      attempt.Some? ==> Issued(outbox, key, attempt.value.version, attempt.value.fingerprint)
  }

  /** The outbox rows are the messages the transactions wrote, in order. */
  ghost predicate RowsAreMessages(sys: System) {
    && |sys.outbox.rows| == |sys.tables.outbox|
    && forall i :: 0 <= i < |sys.outbox.rows| ==> sys.outbox.rows[i].message == sys.tables.outbox[i]
  }

  ghost predicate SystemOk(setup: Setup, sys: System) {
    && HotelRuns.TablesOk(sys.tables, setup.policy)
    && OutboxRuns.OutboxOk(setup.retry, sys.outbox)
    && RowsAreMessages(sys)
    && ProtocolRuns.WorkerInv(sys.env, setup.settings, sys.worker)
    && WorkerKnowsIssued(sys.tables.outbox, sys.worker)
  }

  lemma IssuedLasts(before: seq<Message>, after: seq<Message>, ws: Protocol.WorkerState)
    requires before <= after && WorkerKnowsIssued(before, ws)
    ensures WorkerKnowsIssued(after, ws)
  {
    forall key | Protocol.RoomOf(ws, key).attempt.Some?
      ensures Issued(after, key, Protocol.RoomOf(ws, key).attempt.value.version, Protocol.RoomOf(ws, key).attempt.value.fingerprint)
    {
      var attempt := Protocol.RoomOf(ws, key).attempt.value;
      assert Issued(before, key, attempt.version, attempt.fingerprint);
      var i :| 0 <= i < |before| && before[i].IntentState? && before[i].intent.roomKey == key
        && before[i].intent.version == attempt.version && before[i].intent.StablePayload() == attempt.fingerprint;
      assert after[i] == before[i];
    }
  }

  lemma HotelMoveKeeps(setup: Setup, sys: System, step: HotelRuns.Step, ids: seq<int>, at: int)
    requires setup.Valid() && SystemOk(setup, sys) && Allowed(setup, sys, HotelMove(step, ids, at))
    ensures SystemOk(setup, Next(setup, sys, HotelMove(step, ids, at)))
  {
    hide HotelRuns.TablesOk, OutboxRuns.OutboxOk, ProtocolRuns.WorkerInv, HotelRuns.Advance, HotelRuns.OnTime, WorkerKnowsIssued;
    HotelRuns.StepKeepsTables(setup.rooms, setup.policy, sys.tables, step);
    HotelRuns.StepAppends(setup.rooms, setup.policy, sys.tables, step);
    var after := HotelRuns.Advance(setup.rooms, setup.policy, sys.tables, step);
    assert sys.tables.outbox + NewMessages(setup, sys, step) == after.outbox;
    OutboxRuns.EnqueueKeeps(setup.retry, sys.outbox, ids, NewMessages(setup, sys, step), at);
    IssuedLasts(sys.tables.outbox, after.outbox, sys.worker);
  }

  lemma OutboxMoveKeeps(setup: Setup, sys: System, step: OutboxRuns.OutboxStep)
    requires setup.Valid() && SystemOk(setup, sys) && Allowed(setup, sys, OutboxMove(step))
    ensures SystemOk(setup, Next(setup, sys, OutboxMove(step)))
  {
    hide HotelRuns.TablesOk, OutboxRuns.OutboxOk, ProtocolRuns.WorkerInv, WorkerKnowsIssued, Outbox.ClaimPending, Outbox.RecordResults;
    OutboxRuns.StepKeeps(setup.retry, sys.outbox, step);
    var rows := OutboxRuns.Take(setup.retry, sys.outbox, step).rows;
    assert |rows| == |sys.outbox.rows|;
    forall i | 0 <= i < |rows|
      ensures rows[i].message == sys.outbox.rows[i].message
    {
      assert OutboxRuns.RowEvolves(setup.retry, sys.outbox.rows[i], rows[i]);
    }
  }

  /** What the broker delivers was issued. */
  lemma DeliveredWasIssued(setup: Setup, sys: System, place: nat)
    requires SystemOk(setup, sys) && Allowed(setup, sys, Deliver(place))
    ensures var intent := sys.outbox.log[place].message.intent;
            Issued(sys.tables.outbox, intent.roomKey, intent.version, intent.StablePayload())
  {
    hide HotelRuns.TablesOk, ProtocolRuns.WorkerInv, WorkerKnowsIssued;
    var e := sys.outbox.log[place];
    assert e in sys.outbox.log;
    var i :| 0 <= i < |sys.outbox.rows| && sys.outbox.rows[i].id == e.id && sys.outbox.rows[i].message == e.message;
    assert sys.tables.outbox[i] == e.message;
  }

  lemma DeliveryKeeps(setup: Setup, sys: System, place: nat)
    requires setup.Valid() && SystemOk(setup, sys) && Allowed(setup, sys, Deliver(place))
    ensures SystemOk(setup, Next(setup, sys, Deliver(place)))
  {
    hide HotelRuns.TablesOk, OutboxRuns.OutboxOk, Protocol.ApplyToRoom, ProtocolSafety.RoomInv, ProtocolSafety.GoodLog,
         ProtocolSafety.Unverified, ProtocolSafety.BusOps, Issued;
    var intent, s, ws := sys.outbox.log[place].message.intent, setup.settings, sys.worker;
    DeliveredWasIssued(setup, sys, place);
    ProtocolRuns.ApplyKeepsInvariant(sys.env, s, ws, intent);
    var after := Protocol.Apply(sys.env, s, ws, intent).st;
    if intent.roomKey in s.slaves {
      var key, slave := intent.roomKey, s.slaves[intent.roomKey];
      assert ProtocolSafety.Consistent(sys.env, key, slave, ProtocolRuns.View(ws, key));
      ProtocolRuns.DeliveredKeeps(sys.env, key, slave, ProtocolRuns.View(ws, key), intent);
      AttemptOrigin(sys.env, s, intent, key, slave, ProtocolRuns.View(ws.(log := ws.log + [Protocol.Delivered(intent)]), key));
    }
    forall key
      ensures var attempt := Protocol.RoomOf(after, key).attempt;
              attempt.Some? ==> Issued(sys.tables.outbox, key, attempt.value.version, attempt.value.fingerprint)
    {
      var was := Protocol.RoomOf(ws, key).attempt;
      assert was.Some? ==> Issued(sys.tables.outbox, key, was.value.version, was.value.fingerprint);
    }
  }

  lemma MoveKeeps(setup: Setup, sys: System, move: Move)
    requires setup.Valid() && SystemOk(setup, sys) && Allowed(setup, sys, move)
    ensures SystemOk(setup, Next(setup, sys, move))
  {
    match move {
      case HotelMove(step, ids, at) => HotelMoveKeeps(setup, sys, step, ids, at);
      case OutboxMove(step) => OutboxMoveKeeps(setup, sys, step);
      case Deliver(place) => DeliveryKeeps(setup, sys, place);
      case Restart(env) =>
        hide HotelRuns.TablesOk, OutboxRuns.OutboxOk;
        ProtocolRuns.IdleWorkerIsConsistent(env, setup.settings);
    }
  }

  lemma EarlierAllowed(setup: Setup, sys: System, moves: seq<Move>)
    requires setup.settings.Valid() && moves != [] && AllAllowed(setup, sys, moves)
    ensures AllAllowed(setup, sys, moves[..|moves| - 1])
    ensures Allowed(setup, After(setup, sys, moves[..|moves| - 1]), moves[|moves| - 1])
  {
    hide Allowed, Next;
    var earlier := moves[..|moves| - 1];
    forall i | 0 <= i < |earlier|
      ensures Allowed(setup, After(setup, sys, earlier[..i]), earlier[i])
    {
      assert earlier[..i] == moves[..i];
    }
  }

  lemma {:induction false} MovesKeep(setup: Setup, sys: System, moves: seq<Move>)
    requires setup.Valid() && SystemOk(setup, sys) && AllAllowed(setup, sys, moves)
    ensures SystemOk(setup, After(setup, sys, moves))
  {
    hide SystemOk, Allowed, Next;
    if moves != [] {
      var earlier := moves[..|moves| - 1];
      EarlierAllowed(setup, sys, moves);
      MovesKeep(setup, sys, earlier);
      MoveKeeps(setup, After(setup, sys, earlier), moves[|moves| - 1]);
    }
  }

  lemma InitiallyOk(setup: Setup, env: Protocol.Environment)
    ensures SystemOk(setup, InitialSystem(env))
  {
    ProtocolRuns.IdleWorkerIsConsistent(env, setup.settings);
  }

  lemma SameVersionSamePayload(outbox: seq<Message>, t: Tables, policy: Policy, key: string, version: int, a: Intent, b: Intent)
    requires HotelRuns.TablesOk(t, policy) && outbox == t.outbox
    requires Issued(outbox, key, version, a) && Issued(outbox, key, version, b)
    ensures a == b
  {
    hide HotelRuns.TablesOk;
    var i :| 0 <= i < |outbox| && outbox[i].IntentState? && outbox[i].intent.roomKey == key
      && outbox[i].intent.version == version && outbox[i].intent.StablePayload() == a;
    var j :| 0 <= j < |outbox| && outbox[j].IntentState? && outbox[j].intent.roomKey == key
      && outbox[j].intent.version == version && outbox[j].intent.StablePayload() == b;
    if i < j {
      HotelRuns.IntentOrder(t, policy, i, j);
    } else if j < i {
      HotelRuns.IntentOrder(t, policy, j, i);
    }
  }

  /**
   End-to-end delivery: in every interleaving of synchronizations, ticks, commands, outbox retries, crashes,
   stale releases, redeliveries in any order and worker restarts, the worker never meets a version with a second
   payload, so its rejection of one never fires.
   */
  lemma DeliveryNeverClashes(setup: Setup, env: Protocol.Environment, moves: seq<Move>, place: nat)
    requires setup.Valid() && AllAllowed(setup, InitialSystem(env), moves)
    requires Allowed(setup, After(setup, InitialSystem(env), moves), Deliver(place))
    ensures var sys := After(setup, InitialSystem(env), moves);
            !Clashes(Protocol.Apply(sys.env, setup.settings, sys.worker, sys.outbox.log[place].message.intent).result)
  {
    hide HotelRuns.TablesOk, OutboxRuns.OutboxOk, ProtocolRuns.WorkerInv, Protocol.Apply, Next;
    InitiallyOk(setup, env);
    MovesKeep(setup, InitialSystem(env), moves);
    var sys := After(setup, InitialSystem(env), moves);
    var intent := sys.outbox.log[place].message.intent;
    DeliveredWasIssued(setup, sys, place);
    ClashExactly(sys.env, setup.settings, sys.worker, intent);
    var attempt := Protocol.RoomOf(sys.worker, intent.roomKey).attempt;
    if attempt.Some? && attempt.value.version == intent.version {
      SameVersionSamePayload(sys.tables.outbox, sys.tables, setup.policy, intent.roomKey, intent.version,
                             attempt.value.fingerprint, intent.StablePayload());
    }
  }

  /** Between restarts of the worker, the version applied to a room never decreases, in whatever order intents arrive. */
  lemma {:induction false} AppliedNeverDecreases(setup: Setup, sys: System, moves: seq<Move>, key: string)
    requires setup.Valid() && SystemOk(setup, sys) && AllAllowed(setup, sys, moves)
    requires forall i :: 0 <= i < |moves| ==> !moves[i].Restart?
    ensures ProtocolSafety.NotAbove(Protocol.RoomOf(sys.worker, key).applied,
                                    Protocol.RoomOf(After(setup, sys, moves).worker, key).applied)
  {
    hide SystemOk, Allowed, Next;
    if moves != [] {
      var earlier, move := moves[..|moves| - 1], moves[|moves| - 1];
      EarlierAllowed(setup, sys, moves);
      AppliedNeverDecreases(setup, sys, earlier, key);
      MovesKeep(setup, sys, earlier);
      AppliedMoves(setup, After(setup, sys, earlier), move, key);
    }
  }

  lemma AppliedMoves(setup: Setup, sys: System, move: Move, key: string)
    requires setup.Valid() && SystemOk(setup, sys) && Allowed(setup, sys, move) && !move.Restart?
    ensures ProtocolSafety.NotAbove(Protocol.RoomOf(sys.worker, key).applied,
                                    Protocol.RoomOf(Next(setup, sys, move).worker, key).applied)
  {
    hide HotelRuns.TablesOk, OutboxRuns.OutboxOk, ProtocolRuns.WorkerInv, Protocol.Apply, ProtocolSafety.BusOps, WorkerKnowsIssued;
    if move.Deliver? {
      var intent := sys.outbox.log[move.place].message.intent;
      ProtocolRuns.ApplyKeepsInvariant(sys.env, setup.settings, sys.worker, intent);
    }
  }

  /** A restart forgets the watermarks: whatever is redelivered next is taken for new, however old it is. */
  lemma RestartForgets(setup: Setup, sys: System, env: Protocol.Environment, intent: Intent)
    requires setup.Valid() && intent.roomKey in setup.settings.slaves
    ensures var worker := Next(setup, sys, Restart(env)).worker;
            var d := Protocol.Apply(env, setup.settings, worker, intent);
            && !Stale(d.result)
            && Protocol.RoomOf(d.st, intent.roomKey).seen == Some(intent.version)
  {
    hide Protocol.Execute, ProtocolSafety.GoodLog, ProtocolSafety.BusOps, ProtocolSafety.Unverified, ProtocolSafety.Times;
    var s, key := setup.settings, intent.roomKey;
    var st := Protocol.Local(Protocol.FreshRoom, map[], [Protocol.Delivered(intent)]);
    ProtocolRuns.IdleWorkerIsConsistent(env, s);
    assert ProtocolSafety.Consistent(env, key, s.slaves[key], ProtocolRuns.View(Protocol.IdleWorker, key));
    ProtocolRuns.DeliveredKeeps(env, key, s.slaves[key], ProtocolRuns.View(Protocol.IdleWorker, key), intent);
    assert Protocol.IdleWorker.log + [Protocol.Delivered(intent)] == [Protocol.Delivered(intent)];
    var room := st.room.(seen := Some(intent.version), attempt := Some(Protocol.NewAttempt(intent)));
    ProtocolRuns.NewVersionKeeps(env, key, s.slaves[key], st, intent);
    ProtocolSafety.ExecuteFine(env, s, intent, key, s.slaves[key], st.(room := room));
    ExecuteAnswersTheAttempt(env, s, intent, s.slaves[key], st.(room := room));
  }
}
