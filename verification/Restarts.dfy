/**
 What a restart of the worker does to the applied version: it is forgotten, and what is redelivered afterwards decides
 where it ends.
 */
module Restarts {
  import opened Domain
  import opened Delivery
  import opened Protocol
  import opened ProtocolSafety
  import opened ProtocolRuns
  import opened ProtocolTraces
  import opened Convergence
  import Planner
  import Simulator

  /** The intents of one move. */
  function DeliveredAt(sys: System, move: Move): seq<Intent> {
    if move.Deliver? && move.place < |sys.outbox.log| && sys.outbox.log[move.place].message.IntentState? then
      [sys.outbox.log[move.place].message.intent]
    else []
  }

  /** The intents that moves deliver to the worker, in order. */
  function DeliveredBy(setup: Setup, sys: System, moves: seq<Move>): seq<Intent>
    requires setup.settings.Valid()
  {
    if moves == [] then []
    else
      var earlier := moves[..|moves| - 1];
      DeliveredBy(setup, sys, earlier) + DeliveredAt(After(setup, sys, earlier), moves[|moves| - 1])
  }

  ghost predicate WithoutRestart(moves: seq<Move>) {
    forall i :: 0 <= i < |moves| ==> !moves[i].Restart?
  }

  /** Between restarts the worker goes through a run on the delivered intents, on one bus and one clock. */
  lemma {:induction false} WorkerRuns(setup: Setup, sys: System, moves: seq<Move>)
    requires setup.settings.Valid() && WithoutRestart(moves)
    ensures After(setup, sys, moves).env == sys.env
    ensures After(setup, sys, moves).worker == Run(sys.env, setup.settings, sys.worker, DeliveredBy(setup, sys, moves))
  {
    hide Next, Run;
    if moves == [] {
      RunUnfolds(sys.env, setup.settings, sys.worker, []);
    } else {
      var earlier, last := moves[..|moves| - 1], moves[|moves| - 1];
      WorkerRuns(setup, sys, earlier);
      WorkerMoves(setup, After(setup, sys, earlier), last);
      var before, at := DeliveredBy(setup, sys, earlier), DeliveredAt(After(setup, sys, earlier), last);
      if at == [] {
        assert before + at == before;
      } else {
        RunUnfolds(sys.env, setup.settings, sys.worker, before + at);
        assert (before + at)[..|before|] == before;
      }
    }
  }

  lemma RunUnfolds(env: Environment, s: Settings, ws: WorkerState, intents: seq<Intent>)
    requires s.Valid()
    ensures Run(env, s, ws, intents) ==
            if intents == [] then ws else Apply(env, s, Run(env, s, ws, intents[..|intents| - 1]), intents[|intents| - 1]).st
  {
    hide Apply;
  }

  lemma WorkerMoves(setup: Setup, sys: System, move: Move)
    requires setup.settings.Valid() && !move.Restart?
    ensures Next(setup, sys, move).env == sys.env
    ensures Next(setup, sys, move).worker ==
            if DeliveredAt(sys, move) == [] then sys.worker else Apply(sys.env, setup.settings, sys.worker, DeliveredAt(sys, move)[0]).st
  {
    hide Apply;
  }

  /** The system after a restart of the worker and further moves. */
  function AfterRestart(setup: Setup, sys: System, env: Environment, later: seq<Move>): System
    requires setup.settings.Valid()
  {
    After(setup, Next(setup, sys, Restart(env)), later)
  }

  function Redelivered(setup: Setup, sys: System, env: Environment, later: seq<Move>): seq<Intent>
    requires setup.settings.Valid()
  {
    DeliveredBy(setup, Next(setup, sys, Restart(env)), later)
  }

  /** Whatever version is applied after a restart was redelivered after it, on every bus. */
  lemma AppliedWasRedelivered(setup: Setup, sys: System, env: Environment, later: seq<Move>, key: string)
    requires setup.settings.Valid() && WithoutRestart(later) && key in setup.settings.slaves
    ensures var applied := RoomOf(AfterRestart(setup, sys, env, later).worker, key).applied;
            applied.Some? ==>
              exists intent :: intent in Redelivered(setup, sys, env, later) && intent.roomKey == key && Some(intent.version) == applied
  {
    WorkerRuns(setup, Next(setup, sys, Restart(env)), later);
    var intents := Redelivered(setup, sys, env, later);
    SeenIsHighest(env, setup.settings, intents, key);
    var applied := RoomOf(AfterRestart(setup, sys, env, later).worker, key).applied;
    if applied.Some? {
      var i :| 0 <= i < |intents| && intents[i].roomKey == key && applied == Some(intents[i].version);
      assert intents[i] in intents;
    }
  }

  /** If no older version is redelivered, the version that is applied after a restart is not older. */
  lemma NewerRedeliveriesOnly(setup: Setup, sys: System, env: Environment, later: seq<Move>, key: string, version: int)
    requires setup.settings.Valid() && WithoutRestart(later) && key in setup.settings.slaves
    requires forall intent :: intent in Redelivered(setup, sys, env, later) && intent.roomKey == key ==> version <= intent.version
    ensures var applied := RoomOf(AfterRestart(setup, sys, env, later).worker, key).applied;
            applied.Some? ==> version <= applied.value
  {
    AppliedWasRedelivered(setup, sys, env, later, key);
  }

  /**
   On a bus that lets new versions end applied, a restart makes the applied version of a room fall exactly when every
   redelivery for the room is older than it, and makes it disappear exactly when there is none.
   */
  lemma AppliedFallsExactly(setup: Setup, sys: System, env: Environment, later: seq<Move>, key: string, version: int)
    requires setup.settings.Valid() && WithoutRestart(later) && key in setup.settings.slaves
    requires RoomOf(sys.worker, key).applied == Some(version)
    requires Obliging(env, setup.settings, Redelivered(setup, sys, env, later), key)
    ensures var applied := RoomOf(AfterRestart(setup, sys, env, later).worker, key).applied;
            var redelivered := Redelivered(setup, sys, env, later);
            && applied == Highest(redelivered, key)
            && (applied.None? <==> forall i :: 0 <= i < |redelivered| ==> redelivered[i].roomKey != key)
            && (applied.None? || applied.value < version <==>
                forall i :: 0 <= i < |redelivered| && redelivered[i].roomKey == key ==> redelivered[i].version < version)
  {
    hide Run, After, DeliveredBy, Highest, Obliging;
    WorkerRuns(setup, Next(setup, sys, Restart(env)), later);
    AppliedIsHighest(env, setup.settings, Redelivered(setup, sys, env, later), key);
    HighestIs(Redelivered(setup, sys, env, later), key);
  }

  /** The redelivery of an intent reaches the simulated device while it is open, and can be planned for it. */
  ghost predicate ReachesDevice(setup: Setup, env: Environment, devices: Simulator.Devices, intent: Intent, plan: Planner.Plan, d: Simulator.Device) {
    && intent.roomKey in setup.settings.slaves
    && Simulator.Simulated(env, devices)
    && Present(devices, [], setup.settings.slaves[intent.roomKey], d) && Simulator.DeviceOk(d)
    && PlannedFor(intent, setup.settings.slaves[intent.roomKey], d, plan)
    && OpenNow(env, setup.settings, intent, setup.settings.slaves[intent.roomKey], map[], [Delivered(intent)])
    && setup.settings.readbackAttempts > d.delay
  }

  /**
   On the simulated entrance a single redelivery after a restart is applied, whatever was applied before: the applied
   version of the room falls exactly when the redelivered one is older.
   */
  lemma RedeliveryIsApplied(setup: Setup, sys: System, env: Environment, place: nat, version: int,
                            devices: Simulator.Devices, plan: Planner.Plan, d: Simulator.Device) returns (intent: Intent)
    requires setup.Valid() && SystemOk(setup, sys) && Allowed(setup, sys, Deliver(place))
    requires RoomOf(sys.worker, sys.outbox.log[place].message.intent.roomKey).applied == Some(version)
    requires ReachesDevice(setup, env, devices, sys.outbox.log[place].message.intent, plan, d)
    ensures intent == sys.outbox.log[place].message.intent
    ensures RoomOf(Next(setup, Next(setup, sys, Restart(env)), Deliver(place)).worker, intent.roomKey).applied == Some(intent.version)
    ensures !NotAbove(RoomOf(sys.worker, intent.roomKey).applied,
                      RoomOf(Next(setup, Next(setup, sys, Restart(env)), Deliver(place)).worker, intent.roomKey).applied)
       <==> intent.version < version
  {
    hide Apply, SystemOk, PlannedFor, Present, WorkerInv;
    intent := sys.outbox.log[place].message.intent;
    assert IdleWorker.log + [Delivered(intent)] == [Delivered(intent)];
    var final := DelayedStatusConvergence(env, setup.settings, devices, IdleWorker, intent, plan, d);
    IdleWorkerIsConsistent(env, setup.settings);
    ApplyRecords(env, setup.settings, IdleWorker, intent);
  }
}
