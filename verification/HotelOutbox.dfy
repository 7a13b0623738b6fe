/**
 What the outbox says about the rooms: its newest messages for a room are those of the room's last evaluation.
 */
module HotelOutbox {
  import opened Domain
  import opened Sequences
  import opened StateMachine
  import opened Engine
  import opened Store
  import opened Control
  import opened ClockSync
  import opened DbSync
  import opened HotelRuns

  // Equal but for what two recalculations may differ in

  function Hashless(booking: Option<Booking>): Option<Booking> {
    if booking.Some? then Some(booking.value.(payloadHash := "")) else None
  }

  /** The same state, whenever it started to hold. */
  predicate SameState(a: Evaluation, b: Evaluation) {
    && a.roomKey == b.roomKey
    && a.phase == b.phase
    && Hashless(a.booking) == Hashless(b.booking)
    && a.needsAttention == b.needsAttention
    && a.attention == b.attention
    && a.reason == b.reason
    && a.expiresAt == b.expiresAt
  }

  /** The same intent, under whatever version, start and correlation id. */
  predicate SameIntent(a: Intent, b: Intent) {
    && a.roomKey == b.roomKey
    && a.phase == b.phase
    && a.controlMode == b.controlMode
    && a.expiresAt == b.expiresAt
    && a.hvac == b.hvac
    && a.waterHeater == b.waterHeater
    && a.convectors == b.convectors
    && a.reason == b.reason
  }

  /** The semantic hash tells states and intents apart exactly by these fields. */
  lemma HashIsFaithful(a: Evaluation, i: Intent, b: Evaluation, j: Intent)
    ensures RoomStateHash(a, Some(i)) == RoomStateHash(b, Some(j)) <==> SameState(a, b) && SameIntent(i, j)
  {
    var x, y := i.StablePayload().(effectiveFrom := 0), j.StablePayload().(effectiveFrom := 0);
    assert x == y <==> SameIntent(i, j) by {
      if x == y {
        SameFields(i, j, x, y);
      }
    }
  }

  lemma SameFields(i: Intent, j: Intent, x: Intent, y: Intent)
    requires x == i.StablePayload().(effectiveFrom := 0) && y == j.StablePayload().(effectiveFrom := 0) && x == y
    ensures SameIntent(i, j)
  {
    assert x.roomKey == i.roomKey && y.roomKey == j.roomKey;
    assert x.phase == i.phase && y.phase == j.phase;
    assert x.controlMode == i.controlMode && y.controlMode == j.controlMode;
    assert x.expiresAt == i.expiresAt && y.expiresAt == j.expiresAt;
    assert x.hvac == i.hvac && y.hvac == j.hvac;
    assert x.waterHeater == i.waterHeater && y.waterHeater == j.waterHeater;
    assert x.convectors == i.convectors && y.convectors == j.convectors;
    assert x.reason == i.reason && y.reason == j.reason;
  }

  // The newest messages of a room

  function NewestPms(outbox: seq<Message>, key: string): Option<Evaluation> {
    if outbox == [] then None
    else
      var last := outbox[|outbox| - 1];
      if last.PmsState? && last.state.roomKey == Some(key) then Some(last.state)
      else NewestPms(outbox[..|outbox| - 1], key)
  }

  function NewestIntent(outbox: seq<Message>, key: string): Option<Intent> {
    if outbox == [] then None
    else
      var last := outbox[|outbox| - 1];
      if last.IntentState? && last.intent.roomKey == key then Some(last.intent)
      else NewestIntent(outbox[..|outbox| - 1], key)
  }

  lemma NewestAppend(outbox: seq<Message>, m: Message, key: string)
    ensures NewestPms(outbox + [m], key) == if m.PmsState? && m.state.roomKey == Some(key) then Some(m.state) else NewestPms(outbox, key)
    ensures NewestIntent(outbox + [m], key) == if m.IntentState? && m.intent.roomKey == key then Some(m.intent) else NewestIntent(outbox, key)
  {
    assert (outbox + [m])[..|outbox|] == outbox;
  }

  lemma {:induction false} NewestOfRoom(outbox: seq<Message>, key: string)
    ensures NewestPms(outbox, key) == NewestPms(Messages(key, outbox), key)
    ensures NewestIntent(outbox, key) == NewestIntent(Messages(key, outbox), key)
  {
    if outbox != [] {
      var earlier, last := outbox[..|outbox| - 1], outbox[|outbox| - 1];
      NewestOfRoom(earlier, key);
      assert outbox == earlier + [last];
      FilterAppend(MessagesFor(key), earlier, [last]);
      FilterOne(MessagesFor(key), last);
      NewestAppend(earlier, last, key);
      NewestAppend(Messages(key, earlier), last, key);
      assert Messages(key, earlier) + [] == Messages(key, earlier);
    }
  }

  lemma {:induction false} OnlyControl(outbox: seq<Message>, more: seq<Message>, key: string)
    requires forall m :: m in more ==> m.ControlState?
    ensures NewestPms(outbox + more, key) == NewestPms(outbox, key)
    ensures NewestIntent(outbox + more, key) == NewestIntent(outbox, key)
  {
    if more == [] {
      assert outbox + more == outbox;
    } else {
      var earlier, last := more[..|more| - 1], more[|more| - 1];
      assert last in more;
      OnlyControl(outbox, earlier, key);
      assert outbox + more == outbox + earlier + [last];
      NewestAppend(outbox + earlier, last, key);
    }
  }

  // The invariant

  /** The room's last row is that of its newest messages. */
  ghost predicate Shown(key: string, record: RoomRecord, outbox: seq<Message>) {
    record.states != [] ==>
      var row := record.states[|record.states| - 1];
      && NewestPms(outbox, key).Some? && NewestIntent(outbox, key).Some?
      && row.hash == RoomStateHash(NewestPms(outbox, key).value, Some(NewestIntent(outbox, key).value))
      && row.phase == NewestPms(outbox, key).value.phase
      && row.bookingId == (var b := NewestPms(outbox, key).value.booking; if b.Some? then Some(b.value.id) else None)
      && row.version == NewestIntent(outbox, key).value.version
  }

  lemma SameMessagesShown(key: string, record: RoomRecord, outbox: seq<Message>, outbox': seq<Message>)
    requires Shown(key, record, outbox) && Messages(key, outbox') == Messages(key, outbox)
    ensures Shown(key, record, outbox')
  {
    hide RoomStateHash, Filter, NewestPms, NewestIntent;
    NewestOfRoom(outbox, key);
    NewestOfRoom(outbox', key);
  }

  /** What the messages show of an evaluation and the intent derived from it. */
  predicate ShowsEvaluation(outbox: seq<Message>, key: string, e: Evaluation, intent: Intent) {
    && NewestPms(outbox, key).Some? && SameState(NewestPms(outbox, key).value, e)
    && NewestIntent(outbox, key).Some? && SameIntent(NewestIntent(outbox, key).value, intent)
  }

  lemma NewMessages(outbox: seq<Message>, key: string, e: Evaluation, correlationId: int, intent: Intent, control: seq<Message>)
    requires e.roomKey == Some(key) && intent.roomKey == key && forall m :: m in control ==> m.ControlState?
    ensures NewestPms(outbox + ([PmsState(e, correlationId), IntentState(intent)] + control), key) == Some(e)
    ensures NewestIntent(outbox + ([PmsState(e, correlationId), IntentState(intent)] + control), key) == Some(intent)
  {
    var first := outbox + [PmsState(e, correlationId)];
    NewestAppend(outbox, PmsState(e, correlationId), key);
    NewestAppend(first, IntentState(intent), key);
    OnlyControl(first + [IntentState(intent)], control, key);
    assert outbox + ([PmsState(e, correlationId), IntentState(intent)] + control) == first + [IntentState(intent)] + control;
  }

  /**
   One recalculation: afterwards the newest messages show the evaluation and the derived intent. A row and an intent are
   added if and only if the messages did not show them before.
   */
  lemma RecalculationIsShown(record: RoomRecord, room: Room, bookings: seq<Booking>, policy: Policy, now: int, ids: RowIds,
                             correlationId: int, outbox: seq<Message>)
    requires RecordOk(record, policy) && room.key != "" && Shown(room.key, record, outbox)
    requires record.states == [] || NewestPms(outbox, room.key).Some?
    requires RecalculateRoom(record, room, bookings, policy, now, ids, correlationId).RoomDone?
    ensures var done := RecalculateRoom(record, room, bookings, policy, now, ids, correlationId);
            var e := EvaluationOf(record, room, bookings, policy, now);
            var d := DerivationOf(record, room, bookings, policy, now, correlationId);
            && d.Derived?
            && Shown(room.key, done.record, outbox + done.messages)
            && ShowsEvaluation(outbox + done.messages, room.key, e, d.intent)
            && (done.record.states == record.states <==> record.states != [] && ShowsEvaluation(outbox, room.key, e, d.intent))
            && (done.record.states != record.states ==>
                && |done.record.states| == |record.states| + 1
                && IntentState(d.intent.(version := |record.states| + 1)) in done.messages
                && PmsState(e, correlationId) in done.messages)
            && (done.record.states == record.states ==> forall m :: m in done.messages ==> m.ControlState?)
  {
    hide RecalculateRoom, EvaluateRoom, DeriveRoomIntent, RecordOk, RoomStateHash, NewestPms, NewestIntent, ActiveOverride, EvaluationOf, DerivationOf;
    ChainAlwaysDerives(record, room, bookings, policy, now, correlationId);
    RecalculationShape(record, room, bookings, policy, now, ids, correlationId);
    EvaluatesItsRoom(record, room, bookings, policy, now, correlationId);
    LatestRows(record, policy);
    var done := RecalculateRoom(record, room, bookings, policy, now, ids, correlationId);
    var e := EvaluationOf(record, room, bookings, policy, now);
    var d := DerivationOf(record, room, bookings, policy, now, correlationId);
    var intent := d.intent.(version := |record.states| + 1);
    HashIsFaithful(e, intent, e, d.intent);
    if record.states != [] {
      HashIsFaithful(NewestPms(outbox, room.key).value, NewestIntent(outbox, room.key).value, e, intent);
      StoredHash(record, room, bookings, policy, now, ids, correlationId);
    }
    if done.record.states == record.states {
      OnlyControl(outbox, done.messages, room.key);
    } else {
      var control := done.messages[2..];
      assert done.messages == [PmsState(e, correlationId), IntentState(intent)] + control;
      assert done.messages[0] == PmsState(e, correlationId) && done.messages[1] == IntentState(intent);
      NewMessages(outbox, room.key, e, correlationId, intent, control);
    }
  }

  /** A recalculation leaves the rows alone exactly when it finds the stored hash. */
  lemma StoredHash(record: RoomRecord, room: Room, bookings: seq<Booking>, policy: Policy, now: int, ids: RowIds, correlationId: int)
    requires RecordOk(record, policy) && room.key != "" && record.states != []
    requires RecalculateRoom(record, room, bookings, policy, now, ids, correlationId).RoomDone?
    ensures var d := DerivationOf(record, room, bookings, policy, now, correlationId);
            && d.Derived?
            && (RecalculateRoom(record, room, bookings, policy, now, ids, correlationId).record.states == record.states <==>
                record.states[|record.states| - 1].hash ==
                RoomStateHash(EvaluationOf(record, room, bookings, policy, now), Some(d.intent.(version := |record.states| + 1))))
  {
    hide EvaluateRoom, DeriveRoomIntent, RecordOk, RoomStateHash, Latest, EvaluationOf, DerivationOf;
    ChainAlwaysDerives(record, room, bookings, policy, now, correlationId);
    LatestRows(record, policy);
    var d := DerivationOf(record, room, bookings, policy, now, correlationId);
    if d.Derived? {
      var row := RowFrom(EvaluationOf(record, room, bookings, policy, now), VersionedIntent(d, LatestState(record)), LatestState(record), now, ids.state(room.key));
      assert |record.states + [row]| != |record.states|;
    }
  }

  // All rooms, over runs

  ghost predicate AllShown(t: Tables) {
    forall key :: Shown(key, RecordOf(t.rooms, key), t.outbox)
  }

  lemma RoomIsShown(rooms: seq<Room>, affected: set<string>, bookings: seq<Booking>, policy: Policy, t: Tables, now: int, ids: RowIds,
                    correlationId: int, room: Room)
    requires RegistryOk(rooms) && TablesOk(t, policy) && AllShown(t) && room in rooms && room.key in affected
    requires RecalculateRooms(rooms, affected, bookings, policy, t.rooms, t.outbox, now, ids, correlationId).Recalculated?
    ensures var after := RecalculateRooms(rooms, affected, bookings, policy, t.rooms, t.outbox, now, ids, correlationId);
            var record := RecordOf(t.rooms, room.key);
            var e := EvaluationOf(record, room, bookings, policy, now);
            var d := DerivationOf(record, room, bookings, policy, now, correlationId);
            && d.Derived?
            && Shown(room.key, RecordOf(after.rooms, room.key), after.outbox)
            && ShowsEvaluation(after.outbox, room.key, e, d.intent)
            && (RecordOf(after.rooms, room.key).states == record.states <==>
                record.states != [] && ShowsEvaluation(t.outbox, room.key, e, d.intent))
  {
    hide RecalculateRoom, RecalculateRooms, RecordOk, Filter, ShowsEvaluation, EvaluationOf, DerivationOf;
    var key, record := room.key, RecordOf(t.rooms, room.key);
    assert RoomOk(key, record, t.outbox, policy) && Shown(key, record, t.outbox);
    RoomsAreIndependent(rooms, affected, bookings, policy, t.rooms, t.outbox, now, ids, correlationId, room);
    var after := RecalculateRooms(rooms, affected, bookings, policy, t.rooms, t.outbox, now, ids, correlationId);
    var done := RecalculateRoom(record, room, bookings, policy, now, ids, correlationId);
    RoomDoneExists(rooms, affected, bookings, policy, t, now, ids, correlationId, room);
    RecalculationIsShown(record, room, bookings, policy, now, ids, correlationId, t.outbox);
    var alone := t.outbox + done.messages;
    FilterAppend(MessagesFor(key), t.outbox, done.messages);
    OwnMessages(record, room, bookings, policy, now, ids, correlationId, key);
    assert Messages(key, alone) == Messages(key, after.outbox);
    SameMessagesShown(key, done.record, alone, after.outbox);
    SameMessagesShowEvaluation(key, alone, after.outbox, EvaluationOf(record, room, bookings, policy, now),
                               DerivationOf(record, room, bookings, policy, now, correlationId).intent);
  }

  lemma RoomDoneExists(rooms: seq<Room>, affected: set<string>, bookings: seq<Booking>, policy: Policy, t: Tables, now: int, ids: RowIds,
                       correlationId: int, room: Room)
    requires RegistryOk(rooms) && TablesOk(t, policy) && room in rooms && room.key in affected
    requires RecalculateRooms(rooms, affected, bookings, policy, t.rooms, t.outbox, now, ids, correlationId).Recalculated?
    ensures room.key != ""
    ensures RecalculateRoom(RecordOf(t.rooms, room.key), room, bookings, policy, now, ids, correlationId).RoomDone?
    ensures !DerivationOf(RecordOf(t.rooms, room.key), room, bookings, policy, now, correlationId).Raised?
  {
    hide RecalculateRooms, RecordOk, EvaluateRoom, DeriveRoomIntent, Latest;
    RoomsAreIndependent(rooms, affected, bookings, policy, t.rooms, t.outbox, now, ids, correlationId, room);
  }

  lemma SameMessagesShowEvaluation(key: string, outbox: seq<Message>, outbox': seq<Message>, e: Evaluation, intent: Intent)
    requires Messages(key, outbox') == Messages(key, outbox)
    ensures ShowsEvaluation(outbox', key, e, intent) == ShowsEvaluation(outbox, key, e, intent)
  {
    NewestOfRoom(outbox, key);
    NewestOfRoom(outbox', key);
  }

  lemma RecalculationKeepsShown(rooms: seq<Room>, affected: set<string>, bookings: seq<Booking>, policy: Policy, t: Tables, now: int,
                                ids: RowIds, correlationId: int)
    requires RegistryOk(rooms) && TablesOk(t, policy) && AllShown(t)
    requires RecalculateRooms(rooms, affected, bookings, policy, t.rooms, t.outbox, now, ids, correlationId).Recalculated?
    ensures var after := RecalculateRooms(rooms, affected, bookings, policy, t.rooms, t.outbox, now, ids, correlationId);
            forall key :: Shown(key, RecordOf(after.rooms, key), after.outbox)
  {
    hide RecalculateRooms, TablesOk, Shown;
    var after := RecalculateRooms(rooms, affected, bookings, policy, t.rooms, t.outbox, now, ids, correlationId);
    forall key
      ensures Shown(key, RecordOf(after.rooms, key), after.outbox)
    {
      assert Shown(key, RecordOf(t.rooms, key), t.outbox);
      if key in AllKeys(rooms) * affected {
        var room :| room in rooms && room.key == key;
        RoomIsShown(rooms, affected, bookings, policy, t, now, ids, correlationId, room);
      } else {
        OthersUntouched(rooms, affected, bookings, policy, t.rooms, t.outbox, now, ids, correlationId, key);
        SameMessagesShown(key, RecordOf(t.rooms, key), t.outbox, after.outbox);
      }
    }
  }

  lemma CommandKeepsShown(rooms: seq<Room>, policy: Policy, t: Tables, roomKey: string, command: Command, now: int, id: int)
    requires AllShown(t)
    ensures AllShown(ApplyCommand(t, rooms, policy, roomKey, command, now, id).tables)
  {
    hide BuildRow, NewestPms, NewestIntent, RoomStateHash;
    var after := ApplyCommand(t, rooms, policy, roomKey, command, now, id).tables;
    forall key
      ensures Shown(key, RecordOf(after.rooms, key), after.outbox)
    {
      assert Shown(key, RecordOf(t.rooms, key), t.outbox);
      if after != t {
        OnlyControl(t.outbox, after.outbox[|t.outbox|..], key);
        assert t.outbox + after.outbox[|t.outbox|..] == after.outbox;
      }
    }
  }

  lemma StepKeepsShown(rooms: seq<Room>, policy: Policy, t: Tables, step: Step)
    requires RegistryOk(rooms) && TablesOk(t, policy) && AllShown(t)
    ensures AllShown(Advance(rooms, policy, t, step))
  {
    hide RecalculateRooms, TablesOk, SyncBookings, ApplyCommand, Shown;
    match step {
      case Commanded(roomKey, command, now, id) =>
        CommandKeepsShown(rooms, policy, t, roomKey, command, now, id);
      case Synchronized(result, ids, correlationId) =>
        var st := SyncBookings(rooms, SyncState(t.bookings, {}), result.bookings, result.finishedAt);
        if result.success && RecalculateRooms(rooms, st.affected, Loaded(st.bookings), policy, t.rooms, t.outbox, result.finishedAt,
                                              ids, correlationId).Recalculated? {
          RecalculationKeepsShown(rooms, st.affected, Loaded(st.bookings), policy, t, result.finishedAt, ids, correlationId);
        }
      case Evaluated(keys, now, ids, correlationId) =>
        if RecalculateRooms(rooms, keys, Loaded(t.bookings), policy, t.rooms, t.outbox, now, ids, correlationId).Recalculated? {
          RecalculationKeepsShown(rooms, keys, Loaded(t.bookings), policy, t, now, ids, correlationId);
        }
    }
  }

  lemma {:induction false} RunKeepsShown(rooms: seq<Room>, policy: Policy, steps: seq<Step>)
    requires policy.Valid() && RegistryOk(rooms) && RunOnTime(rooms, policy, EmptyTables, steps)
    ensures TablesOk(RunFrom(rooms, policy, EmptyTables, steps), policy)
    ensures AllShown(RunFrom(rooms, policy, EmptyTables, steps))
  {
    hide TablesOk, Advance, OnTime, RoomStateHash;
    if steps == [] {
      EmptyIsOk(policy);
      NothingToShow();
    } else {
      var earlier := steps[..|steps| - 1];
      EarlierOnTime(rooms, policy, EmptyTables, steps);
      RunKeepsShown(rooms, policy, earlier);
      StepKeepsShown(rooms, policy, RunFrom(rooms, policy, EmptyTables, earlier), steps[|steps| - 1]);
      StepKeepsTables(rooms, policy, RunFrom(rooms, policy, EmptyTables, earlier), steps[|steps| - 1]);
    }
  }

  lemma NothingToShow()
    ensures AllShown(EmptyTables)
  {
  }

  lemma ReachedIsShown(rooms: seq<Room>, policy: Policy, t: Tables)
    requires policy.Valid() && RegistryOk(rooms) && Reached(rooms, policy, t)
    ensures TablesOk(t, policy) && AllShown(t)
  {
    hide TablesOk, AllShown, RunFrom, RunOnTime;
    var steps :| RunOnTime(rooms, policy, EmptyTables, steps) && t == RunFrom(rooms, policy, EmptyTables, steps);
    RunKeepsShown(rooms, policy, steps);
  }

  /**
   After any run that ends with an evaluation of a room, the newest messages of the outbox for the room show it: the PMS
   state is the evaluation, the intent is what is derived from it, apart from start, version and correlation id. Rows and
   intents are added if and only if the outbox did not show that already.
   */
  lemma EvaluationIsShown(rooms: seq<Room>, policy: Policy, t: Tables, keys: set<string>, now: int, ids: RowIds, correlationId: int, room: Room)
    requires policy.Valid() && RegistryOk(rooms) && Reached(rooms, policy, t) && room in rooms && room.key in keys
    requires RecalculateRooms(rooms, keys, Loaded(t.bookings), policy, t.rooms, t.outbox, now, ids, correlationId).Recalculated?
    ensures var after := Advance(rooms, policy, t, Evaluated(keys, now, ids, correlationId));
            var record := RecordOf(t.rooms, room.key);
            var e := EvaluationOf(record, room, Loaded(t.bookings), policy, now);
            var d := DerivationOf(record, room, Loaded(t.bookings), policy, now, correlationId);
            && d.Derived?
            && ShowsEvaluation(after.outbox, room.key, e, d.intent)
            && (RecordOf(after.rooms, room.key).states != record.states <==>
                record.states == [] || !ShowsEvaluation(t.outbox, room.key, e, d.intent))
  {
    hide RecalculateRooms, TablesOk, AllShown, ShowsEvaluation, EvaluationOf, DerivationOf;
    ReachedIsShown(rooms, policy, t);
    RoomIsShown(rooms, keys, Loaded(t.bookings), policy, t, now, ids, correlationId, room);
  }

  /** The same for a synchronization and the rooms it affects, with the bookings it stored. */
  lemma SynchronizationIsShown(rooms: seq<Room>, policy: Policy, t: Tables, result: SyncRunResult, ids: RowIds, correlationId: int, room: Room)
    requires policy.Valid() && RegistryOk(rooms) && Reached(rooms, policy, t) && room in rooms && result.success
    requires var st := SyncBookings(rooms, SyncState(t.bookings, {}), result.bookings, result.finishedAt);
             && room.key in st.affected
             && RecalculateRooms(rooms, st.affected, Loaded(st.bookings), policy, t.rooms, t.outbox, result.finishedAt, ids, correlationId).Recalculated?
    ensures var after := Advance(rooms, policy, t, Synchronized(result, ids, correlationId));
            var record := RecordOf(t.rooms, room.key);
            var e := EvaluationOf(record, room, Loaded(after.bookings), policy, result.finishedAt);
            var d := DerivationOf(record, room, Loaded(after.bookings), policy, result.finishedAt, correlationId);
            && d.Derived?
            && ShowsEvaluation(after.outbox, room.key, e, d.intent)
            && (RecordOf(after.rooms, room.key).states != record.states <==>
                record.states == [] || !ShowsEvaluation(t.outbox, room.key, e, d.intent))
  {
    hide RecalculateRooms, TablesOk, AllShown, ShowsEvaluation, EvaluationOf, DerivationOf, SyncBookings;
    ReachedIsShown(rooms, policy, t);
    var st := SyncBookings(rooms, SyncState(t.bookings, {}), result.bookings, result.finishedAt);
    RoomIsShown(rooms, st.affected, Loaded(st.bookings), policy, t, result.finishedAt, ids, correlationId, room);
  }

  /** In every reachable record the newest state row has the phase, booking and version of the newest messages. */
  lemma NewestRowIsShown(rooms: seq<Room>, policy: Policy, t: Tables, key: string)
    requires policy.Valid() && RegistryOk(rooms) && Reached(rooms, policy, t) && LatestState(RecordOf(t.rooms, key)).Some?
    ensures var row := LatestState(RecordOf(t.rooms, key)).value;
            && NewestPms(t.outbox, key).Some? && NewestIntent(t.outbox, key).Some?
            && row.phase == NewestPms(t.outbox, key).value.phase
            && row.version == NewestIntent(t.outbox, key).value.version
            && (var b := NewestPms(t.outbox, key).value.booking; row.bookingId == if b.Some? then Some(b.value.id) else None)
  {
    hide RecordOk, NewestPms, NewestIntent, RoomStateHash, Latest, Reached, RegistryOk, Shown;
    ReachedRoom(rooms, policy, t, key);
    RowOfShown(RecordOf(t.rooms, key), policy, key, t.outbox);
  }

  lemma ReachedRoom(rooms: seq<Room>, policy: Policy, t: Tables, key: string)
    requires policy.Valid() && RegistryOk(rooms) && Reached(rooms, policy, t)
    ensures RecordOk(RecordOf(t.rooms, key), policy) && Shown(key, RecordOf(t.rooms, key), t.outbox)
  {
    hide RecordOk, Shown, Reached;
    ReachedIsShown(rooms, policy, t);
    assert RoomOk(key, RecordOf(t.rooms, key), t.outbox, policy);
  }

  lemma RowOfShown(record: RoomRecord, policy: Policy, key: string, outbox: seq<Message>)
    requires RecordOk(record, policy) && Shown(key, record, outbox) && LatestState(record).Some?
    ensures var row := LatestState(record).value;
            && NewestPms(outbox, key).Some? && NewestIntent(outbox, key).Some?
            && row.phase == NewestPms(outbox, key).value.phase
            && row.version == NewestIntent(outbox, key).value.version
            && (var b := NewestPms(outbox, key).value.booking; row.bookingId == if b.Some? then Some(b.value.id) else None)
  {
    hide RecordOk, NewestPms, NewestIntent, RoomStateHash;
    LatestRows(record, policy);
  }
}
