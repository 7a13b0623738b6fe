/**
 Whole runs of the hotel's side: synchronizations, policy ticks and manual commands in any order.
 */
module HotelRuns {
  import opened Domain
  import opened Sequences
  import opened StateMachine
  import opened Engine
  import opened Store
  import opened Control
  import opened ClockSync
  import opened DbSync

  // Records whose newest rows are the last ones

  ghost predicate Ascending<T(!new)>(newer: (T, T) -> bool, rows: seq<T>) {
    forall i, j :: 0 <= i < j < |rows| ==> newer(rows[j], rows[i]) && !newer(rows[i], rows[j])
  }

  /** The row would be the newest one. */
  ghost predicate Newest<T(!new)>(newer: (T, T) -> bool, rows: seq<T>, row: T) {
    forall x :: x in rows ==> newer(row, x) && !newer(x, row)
  }

  lemma {:induction false} AscendingLatest<T(!new)>(newer: (T, T) -> bool, rows: seq<T>)
    requires Ascending(newer, rows)
    ensures Latest(newer, rows) == if rows == [] then None else Some(rows[|rows| - 1])
  {
    if rows != [] {
      AscendingLatest(newer, rows[..|rows| - 1]);
    }
  }

  lemma AscendingAppend<T(!new)>(newer: (T, T) -> bool, rows: seq<T>, row: T)
    requires Ascending(newer, rows) && Newest(newer, rows, row)
    ensures Ascending(newer, rows + [row])
  {
  }

  /** What every step keeps of a room's rows. */
  ghost predicate RecordOk(record: RoomRecord, policy: Policy) {
    && ChainOk(record, policy)
    && Ascending(NewerOverride(), record.overrides)
    && Ascending(NewerState(), record.states)
    && forall i :: 0 <= i < |record.states| ==> record.states[i].version == i + 1
  }

  lemma LatestRows(record: RoomRecord, policy: Policy)
    requires RecordOk(record, policy)
    ensures LatestOverride(record) == if record.overrides == [] then None else Some(record.overrides[|record.overrides| - 1])
    ensures LatestState(record) == if record.states == [] then None else Some(record.states[|record.states| - 1])
    ensures NextIntentVersion(LatestState(record)) == |record.states| + 1
    ensures LatestOverride(record).Some? ==> WellFormed(LatestOverride(record).value, policy)
  {
    AscendingLatest(NewerOverride(), record.overrides);
    AscendingLatest(NewerState(), record.states);
  }

  // One room

  function IntentsFor(key: string): Message -> bool {
    (m: Message) => m.IntentState? && m.intent.roomKey == key
  }

  function Intents(key: string, outbox: seq<Message>): seq<Message> {
    Filter(IntentsFor(key), outbox)
  }

  /** The messages of a room, on any of its topics. */
  function MessagesFor(key: string): Message -> bool {
    (m: Message) =>
      match m
      case PmsState(state, _) => state.roomKey == Some(key)
      case IntentState(intent) => intent.roomKey == key
      case ControlState(control) => control.roomKey == key
  }

  function Messages(key: string, outbox: seq<Message>): seq<Message> {
    Filter(MessagesFor(key), outbox)
  }

  lemma IntentsOfRoom(key: string, outbox: seq<Message>)
    ensures Intents(key, outbox) == Intents(key, Messages(key, outbox))
  {
    FilterFilter(IntentsFor(key), MessagesFor(key), outbox);
  }

  /** The rows that a recalculation may add would be the newest ones. */
  ghost predicate Timely(record: RoomRecord, key: string, now: int, ids: RowIds) {
    && (forall row :: row in record.overrides ==> row.startsAt < now || (row.startsAt == now && row.id < ids.override_(key)))
    && (forall row :: row in record.states ==> row.createdAt < now || (row.createdAt == now && row.id < ids.state(key)))
  }

  /** What a recalculation does to the room: at most one state row, and with it the intent of that version. */
  ghost predicate RoomStep(record: RoomRecord, room: Room, policy: Policy, done: RoomOutcome) {
    && done.RoomDone?
    && RecordOk(done.record, policy)
    && (if done.record.states == record.states then Intents(room.key, done.messages) == []
        else
          && |done.record.states| == |record.states| + 1
          && |Intents(room.key, done.messages)| == 1
          && Intents(room.key, done.messages)[0].IntentState?
          && Intents(room.key, done.messages)[0].intent.version == |done.record.states|)
  }

  lemma AutomaticRowIsWellFormed(policy: Policy, now: int, id: int)
    ensures WellFormed(AutomaticRow(now, id), policy)
  {
  }

  /** The shape of a recalculation, whatever it evaluates. */
  lemma RecalculationShape(record: RoomRecord, room: Room, bookings: seq<Booking>, policy: Policy, now: int, ids: RowIds, correlationId: int)
    requires RecalculateRoom(record, room, bookings, policy, now, ids, correlationId).RoomDone?
    requires !DerivationOf(record, room, bookings, policy, now, correlationId).NoIntent?
    ensures var done := RecalculateRoom(record, room, bookings, policy, now, ids, correlationId);
            var state := EvaluationOf(record, room, bookings, policy, now);
            var derived := DerivationOf(record, room, bookings, policy, now, correlationId);
            var ended := EndsOverride(LatestOverride(record), state);
            var intent := derived.intent.(version := NextIntentVersion(LatestState(record)));
            var control := if ended then [ControlState(DefaultControlPayload(room.key))] else [];
            && derived.Derived?
            && intent.roomKey == room.key
            && done.record.overrides == record.overrides + (if ended then [AutomaticRow(now, ids.override_(room.key))] else [])
            && (if done.record.states == record.states then
                  && done.messages == control
                  && LatestState(record).Some? && LatestState(record).value.hash == RoomStateHash(state, Some(intent))
                else
                  && done.record.states == record.states + [RowFrom(state, Some(intent), LatestState(record), now, ids.state(room.key))]
                  && done.messages == [PmsState(state, correlationId), IntentState(intent)] + control)
  {
    hide EvaluateRoom, DeriveRoomIntent, Latest;
    var derived := DerivationOf(record, room, bookings, policy, now, correlationId);
    EvaluatesItsRoom(record, room, bookings, policy, now, correlationId);
    var state := EvaluationOf(record, room, bookings, policy, now);
    var row := RowFrom(state, VersionedIntent(derived, LatestState(record)), LatestState(record), now, ids.state(room.key));
    assert |record.states + [row]| != |record.states|;
  }

  lemma EvaluatesItsRoom(record: RoomRecord, room: Room, bookings: seq<Booking>, policy: Policy, now: int, correlationId: int)
    ensures EvaluationOf(record, room, bookings, policy, now).roomKey == Some(room.key)
    ensures DerivationOf(record, room, bookings, policy, now, correlationId).Derived? ==>
              DerivationOf(record, room, bookings, policy, now, correlationId).intent.roomKey == room.key
  {
  }

  /** The derivation never gives no intent, and raises only as the engine does. */
  lemma ChainAlwaysDerives(record: RoomRecord, room: Room, bookings: seq<Booking>, policy: Policy, now: int, correlationId: int)
    requires RecordOk(record, policy) && room.key != ""
    ensures var e := EvaluationOf(record, room, bookings, policy, now);
            var d := DerivationOf(record, room, bookings, policy, now, correlationId);
            && !d.NoIntent?
            && (d.Raised? <==> && e.phase.PreArrival? && e.booking.Some?
                               && LeadStart(e.booking.value, policy) >= CheckoutAt(e.booking.value, policy))
  {
    LatestRows(record, policy);
    var override := ActiveOverride(LatestOverride(record), now);
    WellFormedIsAccepted(LatestOverride(record), policy, now);
    DerivationRaisesExactly(room, bookings, now, policy, override, correlationId);
  }

  lemma IntentsOfMessages(key: string, state: Evaluation, correlationId: int, intent: Intent, control: seq<Message>)
    requires |control| <= 1 && forall m :: m in control ==> m.ControlState?
    ensures Intents(key, control) == []
    ensures Intents(key, [PmsState(state, correlationId), IntentState(intent)] + control)
         == if intent.roomKey == key then [IntentState(intent)] else []
  {
    if control != [] {
      assert control == [control[0]];
      FilterOne(IntentsFor(key), control[0]);
    }
    FilterTwo(IntentsFor(key), PmsState(state, correlationId), IntentState(intent));
    FilterAppend(IntentsFor(key), [PmsState(state, correlationId), IntentState(intent)], control);
  }

  lemma OverridesGrow(record: RoomRecord, policy: Policy, row: OverrideRow)
    requires RecordOk(record, policy) && WellFormed(row, policy) && Newest(NewerOverride(), record.overrides, row)
    ensures RecordOk(record.(overrides := record.overrides + [row]), policy)
  {
    AscendingAppend(NewerOverride(), record.overrides, row);
  }

  lemma StatesGrow(record: RoomRecord, policy: Policy, row: StateRow)
    requires RecordOk(record, policy) && Newest(NewerState(), record.states, row) && row.version == |record.states| + 1
    ensures RecordOk(record.(states := record.states + [row]), policy)
  {
    hide Latest;
    AscendingAppend(NewerState(), record.states, row);
  }

  lemma RecalculationKeepsRecord(record: RoomRecord, room: Room, bookings: seq<Booking>, policy: Policy, now: int,
                                 ids: RowIds, correlationId: int)
    requires RecordOk(record, policy) && room.key != "" && Timely(record, room.key, now, ids)
    requires RecalculateRoom(record, room, bookings, policy, now, ids, correlationId).RoomDone?
    ensures RoomStep(record, room, policy, RecalculateRoom(record, room, bookings, policy, now, ids, correlationId))
  {
    hide RecalculateRoom, EvaluateRoom, DeriveRoomIntent, RecordOk, Filter, ActiveOverride;
    ChainAlwaysDerives(record, room, bookings, policy, now, correlationId);
    RecalculationShape(record, room, bookings, policy, now, ids, correlationId);
    LatestRows(record, policy);
    var done := RecalculateRoom(record, room, bookings, policy, now, ids, correlationId);
    var state := EvaluationOf(record, room, bookings, policy, now);
    var intent := DerivationOf(record, room, bookings, policy, now, correlationId).intent.(version := |record.states| + 1);
    var ended := EndsOverride(LatestOverride(record), state);
    var control := if ended then [ControlState(DefaultControlPayload(room.key))] else [];
    forall key
      ensures Intents(key, control) == []
      ensures Intents(key, [PmsState(state, correlationId), IntentState(intent)] + control)
           == if room.key == key then [IntentState(intent)] else []
    {
      IntentsOfMessages(key, state, correlationId, intent, control);
    }
    var middle := record;
    if ended {
      AutomaticRowIsWellFormed(policy, now, ids.override_(room.key));
      OverridesGrow(record, policy, AutomaticRow(now, ids.override_(room.key)));
      middle := record.(overrides := done.record.overrides);
    } else {
      assert done.record.overrides == record.overrides;
    }
    if done.record.states == record.states {
      assert done.record == middle;
    } else {
      var row := RowFrom(state, Some(intent), LatestState(record), now, ids.state(room.key));
      StatesGrow(middle, policy, row);
      assert done.record == middle.(states := record.states + [row]);
    }
  }

  // All rooms

  ghost predicate RegistryOk(rooms: seq<Room>) {
    && (forall i, j :: 0 <= i < j < |rooms| ==> rooms[i].key != rooms[j].key)
    && (forall i :: 0 <= i < |rooms| ==> rooms[i].key != "")
  }

  /** Recalculating a room emits messages of that room only. */
  lemma OwnMessages(record: RoomRecord, room: Room, bookings: seq<Booking>, policy: Policy, now: int, ids: RowIds,
                    correlationId: int, key: string)
    requires RecalculateRoom(record, room, bookings, policy, now, ids, correlationId).RoomDone?
    ensures var messages := RecalculateRoom(record, room, bookings, policy, now, ids, correlationId).messages;
            Messages(key, messages) == if key == room.key then messages else []
  {
    hide EvaluateRoom, DeriveRoomIntent, Latest;
    EvaluatesItsRoom(record, room, bookings, policy, now, correlationId);
    var messages := RecalculateRoom(record, room, bookings, policy, now, ids, correlationId).messages;
    forall m | m in messages
      ensures MessagesFor(key)(m) <==> key == room.key
    {
    }
    if key == room.key {
      FilterAll(MessagesFor(key), messages);
    } else {
      FilterNone(MessagesFor(key), messages);
    }
  }

  /** The room's record and messages after a recalculation are those of recalculating it alone. */
  ghost predicate AsAlone(room: Room, bookings: seq<Booking>, policy: Policy, record: RoomRecord, outbox: seq<Message>,
                          now: int, ids: RowIds, correlationId: int, rooms: map<string, RoomRecord>, outbox': seq<Message>) {
    var done := RecalculateRoom(record, room, bookings, policy, now, ids, correlationId);
    && done.RoomDone?
    && RecordOf(rooms, room.key) == done.record
    && Messages(room.key, outbox') == Messages(room.key, outbox) + done.messages
  }

  lemma {:induction false} OthersUntouched(rooms: seq<Room>, affected: set<string>, bookings: seq<Booking>, policy: Policy,
                              records: map<string, RoomRecord>, outbox: seq<Message>, now: int, ids: RowIds, correlationId: int, key: string)
    requires RecalculateRooms(rooms, affected, bookings, policy, records, outbox, now, ids, correlationId).Recalculated?
    requires key !in AllKeys(rooms) * affected
    ensures var after := RecalculateRooms(rooms, affected, bookings, policy, records, outbox, now, ids, correlationId);
            RecordOf(after.rooms, key) == RecordOf(records, key) && Messages(key, after.outbox) == Messages(key, outbox)
  {
    hide RecalculateRoom, Filter;
    if rooms != [] {
      var room, rest := rooms[0], rooms[1..];
      assert AllKeys(rest) <= AllKeys(rooms) && room.key in AllKeys(rooms);
      if room.key !in affected {
        OthersUntouched(rest, affected, bookings, policy, records, outbox, now, ids, correlationId, key);
      } else {
        var done := RecalculateRoom(RecordOf(records, room.key), room, bookings, policy, now, ids, correlationId);
        OthersUntouched(rest, affected, bookings, policy, records[room.key := done.record], outbox + done.messages, now, ids, correlationId, key);
        FilterAppend(MessagesFor(key), outbox, done.messages);
        OwnMessages(RecordOf(records, room.key), room, bookings, policy, now, ids, correlationId, key);
      }
    }
  }

  /** Rooms are recalculated independently of each other. */
  lemma {:induction false} RoomsAreIndependent(rooms: seq<Room>, affected: set<string>, bookings: seq<Booking>, policy: Policy,
                              records: map<string, RoomRecord>, outbox: seq<Message>, now: int, ids: RowIds, correlationId: int, room: Room)
    requires RegistryOk(rooms) && room in rooms && room.key in affected
    requires RecalculateRooms(rooms, affected, bookings, policy, records, outbox, now, ids, correlationId).Recalculated?
    ensures var after := RecalculateRooms(rooms, affected, bookings, policy, records, outbox, now, ids, correlationId);
            AsAlone(room, bookings, policy, RecordOf(records, room.key), outbox, now, ids, correlationId, after.rooms, after.outbox)
  {
    hide RecalculateRoom, Filter;
    var first, rest := rooms[0], rooms[1..];
    assert forall i :: 0 <= i < |rest| ==> rest[i] == rooms[i + 1];
    if first.key !in affected {
      RoomsAreIndependent(rest, affected, bookings, policy, records, outbox, now, ids, correlationId, room);
    } else {
      var done := RecalculateRoom(RecordOf(records, first.key), first, bookings, policy, now, ids, correlationId);
      var records', outbox' := records[first.key := done.record], outbox + done.messages;
      FilterAppend(MessagesFor(room.key), outbox, done.messages);
      OwnMessages(RecordOf(records, first.key), first, bookings, policy, now, ids, correlationId, room.key);
      if room == first {
        OthersUntouched(rest, affected, bookings, policy, records', outbox', now, ids, correlationId, room.key);
      } else {
        RoomsAreIndependent(rest, affected, bookings, policy, records', outbox', now, ids, correlationId, room);
      }
    }
  }

  // Steps and runs

  datatype Step =
    | Commanded(roomKey: string, command: Command, now: int, id: int)
    | Synchronized(result: SyncRunResult, ids: RowIds, correlationId: int)
    | Evaluated(keys: set<string>, now: int, ids: RowIds, correlationId: int)

  function Advance(rooms: seq<Room>, policy: Policy, t: Tables, step: Step): Tables {
    match step
    case Commanded(roomKey, command, now, id) => ApplyCommand(t, rooms, policy, roomKey, command, now, id).tables
    case Synchronized(result, ids, correlationId) => ApplySyncResult(t, rooms, policy, result, ids, correlationId)
    case Evaluated(keys, now, ids, correlationId) => EvaluateRooms(t, rooms, keys, policy, now, ids, correlationId)
  }

  /** The step's instant is later than what is stored for the rooms it writes; equal instants are told apart by their ids. */
  ghost predicate OnTime(rooms: seq<Room>, t: Tables, step: Step) {
    match step
    case Commanded(roomKey, _, now, id) =>
      forall row :: row in RecordOf(t.rooms, roomKey).overrides ==> row.startsAt < now || (row.startsAt == now && row.id < id)
    case Synchronized(result, ids, _) =>
      forall room :: room in rooms ==> Timely(RecordOf(t.rooms, room.key), room.key, result.finishedAt, ids)
    case Evaluated(keys, now, ids, _) =>
      forall room :: room in rooms && room.key in keys ==> Timely(RecordOf(t.rooms, room.key), room.key, now, ids)
  }

  function RunFrom(rooms: seq<Room>, policy: Policy, t: Tables, steps: seq<Step>): Tables {
    if steps == [] then t
    else Advance(rooms, policy, RunFrom(rooms, policy, t, steps[..|steps| - 1]), steps[|steps| - 1])
  }

  ghost predicate RunOnTime(rooms: seq<Room>, policy: Policy, t: Tables, steps: seq<Step>) {
    forall i :: 0 <= i < |steps| ==> OnTime(rooms, RunFrom(rooms, policy, t, steps[..i]), steps[i])
  }

  /** For each room: its rows in order, and one intent in the outbox for each version, in order. */
  ghost predicate RoomOk(key: string, record: RoomRecord, outbox: seq<Message>, policy: Policy) {
    && RecordOk(record, policy)
    && |Intents(key, outbox)| == |record.states|
    && forall i :: 0 <= i < |record.states| ==>
         Intents(key, outbox)[i].IntentState? && Intents(key, outbox)[i].intent.version == i + 1
  }

  ghost predicate TablesOk(t: Tables, policy: Policy) {
    forall key :: RoomOk(key, RecordOf(t.rooms, key), t.outbox, policy)
  }

  lemma RecalculationKeepsRoom(room: Room, bookings: seq<Booking>, policy: Policy, record: RoomRecord, outbox: seq<Message>,
                               now: int, ids: RowIds, correlationId: int, rooms: map<string, RoomRecord>, outbox': seq<Message>)
    requires room.key != "" && RoomOk(room.key, record, outbox, policy) && Timely(record, room.key, now, ids)
    requires AsAlone(room, bookings, policy, record, outbox, now, ids, correlationId, rooms, outbox')
    ensures RoomOk(room.key, RecordOf(rooms, room.key), outbox', policy)
  {
    hide RecalculateRoom, RecordOk, Filter, Timely;
    RecalculationKeepsRecord(record, room, bookings, policy, now, ids, correlationId);
    IntentsOfRoom(room.key, outbox);
    IntentsOfRoom(room.key, outbox');
    FilterAppend(IntentsFor(room.key), Messages(room.key, outbox), RecalculateRoom(record, room, bookings, policy, now, ids, correlationId).messages);
  }

  lemma RecalculationKeepsTables(rooms: seq<Room>, affected: set<string>, bookings: seq<Booking>, policy: Policy,
                                 t: Tables, now: int, ids: RowIds, correlationId: int)
    requires RegistryOk(rooms) && TablesOk(t, policy)
    requires forall room :: room in rooms && room.key in affected ==> Timely(RecordOf(t.rooms, room.key), room.key, now, ids)
    requires RecalculateRooms(rooms, affected, bookings, policy, t.rooms, t.outbox, now, ids, correlationId).Recalculated?
    ensures var after := RecalculateRooms(rooms, affected, bookings, policy, t.rooms, t.outbox, now, ids, correlationId);
            forall key :: RoomOk(key, RecordOf(after.rooms, key), after.outbox, policy)
  {
    hide RecalculateRooms, RoomOk, Timely, AsAlone;
    var after := RecalculateRooms(rooms, affected, bookings, policy, t.rooms, t.outbox, now, ids, correlationId);
    forall key
      ensures RoomOk(key, RecordOf(after.rooms, key), after.outbox, policy)
    {
      assert RoomOk(key, RecordOf(t.rooms, key), t.outbox, policy);
      if key in AllKeys(rooms) * affected {
        var room :| room in rooms && room.key == key;
        RoomsAreIndependent(rooms, affected, bookings, policy, t.rooms, t.outbox, now, ids, correlationId, room);
        RecalculationKeepsRoom(room, bookings, policy, RecordOf(t.rooms, key), t.outbox, now, ids, correlationId, after.rooms, after.outbox);
      } else {
        OthersUntouched(rooms, affected, bookings, policy, t.rooms, t.outbox, now, ids, correlationId, key);
        SameRoomOk(key, RecordOf(t.rooms, key), t.outbox, after.outbox, policy);
      }
    }
  }

  lemma SameRoomOk(key: string, record: RoomRecord, outbox: seq<Message>, outbox': seq<Message>, policy: Policy)
    requires RoomOk(key, record, outbox, policy) && Messages(key, outbox') == Messages(key, outbox)
    ensures RoomOk(key, record, outbox', policy)
  {
    IntentsOfRoom(key, outbox);
    IntentsOfRoom(key, outbox');
  }

  lemma CommandKeepsTables(rooms: seq<Room>, policy: Policy, t: Tables, roomKey: string, command: Command, now: int, id: int)
    requires policy.Valid() && TablesOk(t, policy) && OnTime(rooms, t, Commanded(roomKey, command, now, id))
    ensures TablesOk(ApplyCommand(t, rooms, policy, roomKey, command, now, id).tables, policy)
  {
    hide RecordOk, Filter, BuildRow;
    var outcome := ApplyCommand(t, rooms, policy, roomKey, command, now, id);
    if outcome.refusal.None? {
      var record := RecordOf(t.rooms, roomKey);
      assert RoomOk(roomKey, record, t.outbox, policy);
      BuiltRowKeepsRecord(record, t.bookings, command, policy, now, id);
      var row := BuildRow(record, t.bookings, command, policy, now, id).row;
      forall key
        ensures RoomOk(key, RecordOf(outcome.tables.rooms, key), outcome.tables.outbox, policy)
      {
        assert RoomOk(key, RecordOf(t.rooms, key), t.outbox, policy);
        var message := ControlState(ControlPayloadFor(roomKey, row, now));
        FilterAppend(IntentsFor(key), t.outbox, [message]);
        FilterOne(IntentsFor(key), message);
        assert Intents(key, t.outbox) + [] == Intents(key, t.outbox);
      }
    }
  }

  lemma BuiltRowKeepsRecord(record: RoomRecord, bookings: seq<BookingRecord>, command: Command, policy: Policy, now: int, id: int)
    requires policy.Valid() && RecordOk(record, policy) && BuildRow(record, bookings, command, policy, now, id).Built?
    requires forall row :: row in record.overrides ==> row.startsAt < now || (row.startsAt == now && row.id < id)
    ensures RecordOk(record.(overrides := record.overrides + [BuildRow(record, bookings, command, policy, now, id).row]), policy)
  {
    hide BuildRow, WellFormed, Latest;
    CommandKeepsChain(record, bookings, command, policy, now, id);
    OverridesGrow(record, policy, BuildRow(record, bookings, command, policy, now, id).row);
  }

  lemma StepKeepsTables(rooms: seq<Room>, policy: Policy, t: Tables, step: Step)
    requires policy.Valid() && RegistryOk(rooms) && TablesOk(t, policy) && OnTime(rooms, t, step)
    ensures TablesOk(Advance(rooms, policy, t, step), policy)
  {
    hide RecalculateRooms, RoomOk, Timely, SyncBookings, ApplyCommand;
    match step {
      case Commanded(roomKey, command, now, id) =>
        CommandKeepsTables(rooms, policy, t, roomKey, command, now, id);
      case Synchronized(result, ids, correlationId) =>
        var st := SyncBookings(rooms, SyncState(t.bookings, {}), result.bookings, result.finishedAt);
        if result.success && RecalculateRooms(rooms, st.affected, Loaded(st.bookings), policy, t.rooms, t.outbox, result.finishedAt,
                                              ids, correlationId).Recalculated? {
          RecalculationKeepsTables(rooms, st.affected, Loaded(st.bookings), policy, t, result.finishedAt, ids, correlationId);
        }
      case Evaluated(keys, now, ids, correlationId) =>
        if RecalculateRooms(rooms, keys, Loaded(t.bookings), policy, t.rooms, t.outbox, now, ids, correlationId).Recalculated? {
          RecalculationKeepsTables(rooms, keys, Loaded(t.bookings), policy, t, now, ids, correlationId);
        }
    }
  }

  lemma {:induction false} RunKeepsTables(rooms: seq<Room>, policy: Policy, t: Tables, steps: seq<Step>)
    requires policy.Valid() && RegistryOk(rooms) && TablesOk(t, policy) && RunOnTime(rooms, policy, t, steps)
    ensures TablesOk(RunFrom(rooms, policy, t, steps), policy)
  {
    if steps != [] {
      hide TablesOk, Advance, OnTime;
      var earlier := steps[..|steps| - 1];
      EarlierOnTime(rooms, policy, t, steps);
      RunKeepsTables(rooms, policy, t, earlier);
      StepKeepsTables(rooms, policy, RunFrom(rooms, policy, t, earlier), steps[|steps| - 1]);
    }
  }

  lemma EarlierOnTime(rooms: seq<Room>, policy: Policy, t: Tables, steps: seq<Step>)
    requires steps != [] && RunOnTime(rooms, policy, t, steps)
    ensures RunOnTime(rooms, policy, t, steps[..|steps| - 1])
    ensures OnTime(rooms, RunFrom(rooms, policy, t, steps[..|steps| - 1]), steps[|steps| - 1])
  {
    var earlier := steps[..|steps| - 1];
    forall i | 0 <= i < |earlier|
      ensures OnTime(rooms, RunFrom(rooms, policy, t, earlier[..i]), earlier[i])
    {
      assert earlier[..i] == steps[..i];
    }
  }

  /** The tables a hotel can have: those of a run from empty tables. */
  ghost predicate Reached(rooms: seq<Room>, policy: Policy, t: Tables) {
    exists steps :: RunOnTime(rooms, policy, EmptyTables, steps) && t == RunFrom(rooms, policy, EmptyTables, steps)
  }

  lemma EmptyIsOk(policy: Policy)
    ensures TablesOk(EmptyTables, policy)
  {
  }

  lemma ReachedIsOk(rooms: seq<Room>, policy: Policy, t: Tables)
    requires policy.Valid() && RegistryOk(rooms) && Reached(rooms, policy, t)
    ensures TablesOk(t, policy)
  {
    hide TablesOk, RunFrom, RunOnTime;
    var steps :| RunOnTime(rooms, policy, EmptyTables, steps) && t == RunFrom(rooms, policy, EmptyTables, steps);
    EmptyIsOk(policy);
    RunKeepsTables(rooms, policy, EmptyTables, steps);
  }

  // What holds in every run

  lemma IntentOrder(t: Tables, policy: Policy, i: nat, j: nat)
    requires TablesOk(t, policy)
    requires i < j < |t.outbox| && t.outbox[i].IntentState? && t.outbox[j].IntentState?
    requires t.outbox[i].intent.roomKey == t.outbox[j].intent.roomKey
    ensures 1 <= t.outbox[i].intent.version < t.outbox[j].intent.version <= |RecordOf(t.rooms, t.outbox[i].intent.roomKey).states|
  {
    hide RecordOk;
    var key := t.outbox[i].intent.roomKey;
    assert RoomOk(key, RecordOf(t.rooms, key), t.outbox, policy);
    var k, l := FilterPlaces(IntentsFor(key), t.outbox, i, j);
    assert Intents(key, t.outbox)[k].intent.version == k + 1 && Intents(key, t.outbox)[l].intent.version == l + 1;
  }

  /** A room's intents appear with strictly increasing versions, so each version carries exactly one payload. */
  lemma OnePayloadPerVersion(rooms: seq<Room>, policy: Policy, t: Tables, i: nat, j: nat)
    requires policy.Valid() && RegistryOk(rooms) && Reached(rooms, policy, t)
    requires i < j < |t.outbox| && t.outbox[i].IntentState? && t.outbox[j].IntentState?
    requires t.outbox[i].intent.roomKey == t.outbox[j].intent.roomKey
    ensures 1 <= t.outbox[i].intent.version < t.outbox[j].intent.version <= |RecordOf(t.rooms, t.outbox[i].intent.roomKey).states|
  {
    ReachedIsOk(rooms, policy, t);
    IntentOrder(t, policy, i, j);
  }

  lemma {:induction false} RecalculationAppends(rooms: seq<Room>, affected: set<string>, bookings: seq<Booking>, policy: Policy,
                              records: map<string, RoomRecord>, outbox: seq<Message>, now: int, ids: RowIds, correlationId: int)
    requires RecalculateRooms(rooms, affected, bookings, policy, records, outbox, now, ids, correlationId).Recalculated?
    ensures outbox <= RecalculateRooms(rooms, affected, bookings, policy, records, outbox, now, ids, correlationId).outbox
  {
    hide RecalculateRoom;
    if rooms != [] {
      if rooms[0].key !in affected {
        RecalculationAppends(rooms[1..], affected, bookings, policy, records, outbox, now, ids, correlationId);
      } else {
        var done := RecalculateRoom(RecordOf(records, rooms[0].key), rooms[0], bookings, policy, now, ids, correlationId);
        RecalculationAppends(rooms[1..], affected, bookings, policy, records[rooms[0].key := done.record], outbox + done.messages,
                             now, ids, correlationId);
      }
    }
  }

  /** Steps only add messages to the outbox. */
  lemma StepAppends(rooms: seq<Room>, policy: Policy, t: Tables, step: Step)
    ensures t.outbox <= Advance(rooms, policy, t, step).outbox
  {
    hide RecalculateRooms, SyncBookings, BuildRow;
    match step {
      case Commanded(_, _, _, _) =>
      case Synchronized(result, ids, correlationId) =>
        var st := SyncBookings(rooms, SyncState(t.bookings, {}), result.bookings, result.finishedAt);
        if RecalculateRooms(rooms, st.affected, Loaded(st.bookings), policy, t.rooms, t.outbox, result.finishedAt, ids, correlationId).Recalculated? {
          RecalculationAppends(rooms, st.affected, Loaded(st.bookings), policy, t.rooms, t.outbox, result.finishedAt, ids, correlationId);
        }
      case Evaluated(keys, now, ids, correlationId) =>
        if RecalculateRooms(rooms, keys, Loaded(t.bookings), policy, t.rooms, t.outbox, now, ids, correlationId).Recalculated? {
          RecalculationAppends(rooms, keys, Loaded(t.bookings), policy, t.rooms, t.outbox, now, ids, correlationId);
        }
    }
  }

  /** Every override row that commands and ticks ever wrote is well formed, and what is active of it can be derived from. */
  lemma OverrideChainIsWellFormed(rooms: seq<Room>, policy: Policy, t: Tables, key: string, row: OverrideRow, now: int)
    requires policy.Valid() && RegistryOk(rooms) && Reached(rooms, policy, t)
    requires row in RecordOf(t.rooms, key).overrides
    ensures WellFormed(row, policy)
    ensures AcceptedOverride(ActiveOverride(Some(row), now))
  {
    ReachedIsOk(rooms, policy, t);
    assert RoomOk(key, RecordOf(t.rooms, key), t.outbox, policy);
    WellFormedIsAccepted(Some(row), policy, now);
  }

  /** The room is in pre-arrival for a stay whose preparation window does not open before its checkout. */
  predicate Blocks(room: Room, bookings: seq<Booking>, policy: Policy, record: RoomRecord, now: int) {
    var e := EvaluationOf(record, room, bookings, policy, now);
    && e.phase.PreArrival?
    && e.booking.Some?
    && LeadStart(e.booking.value, policy) >= CheckoutAt(e.booking.value, policy)
  }

  lemma BlocksExactly(room: Room, bookings: seq<Booking>, policy: Policy, record: RoomRecord, now: int, ids: RowIds, correlationId: int)
    requires RecordOk(record, policy) && room.key != ""
    ensures RecalculateRoom(record, room, bookings, policy, now, ids, correlationId).RoomRaised? <==> Blocks(room, bookings, policy, record, now)
  {
    hide EvaluateRoom, DeriveRoomIntent, RecordOk;
    ChainAlwaysDerives(record, room, bookings, policy, now, correlationId);
  }

  /** A transaction is rolled back exactly when one of its rooms blocks; that room then holds up all the others. */
  lemma {:induction false} RollsBackExactly(rooms: seq<Room>, affected: set<string>, bookings: seq<Booking>, policy: Policy,
                     records: map<string, RoomRecord>, outbox: seq<Message>, now: int, ids: RowIds, correlationId: int)
    requires RegistryOk(rooms)
    requires forall room :: room in rooms ==> RecordOk(RecordOf(records, room.key), policy)
    ensures RecalculateRooms(rooms, affected, bookings, policy, records, outbox, now, ids, correlationId).RolledBack? <==>
            exists room :: room in rooms && room.key in affected && Blocks(room, bookings, policy, RecordOf(records, room.key), now)
  {
    if rooms != [] {
      hide RecalculateRoom, Blocks, RecordOk;
      var room, rest := rooms[0], rooms[1..];
      assert forall i :: 0 <= i < |rest| ==> rest[i] == rooms[i + 1];
      BlocksExactly(room, bookings, policy, RecordOf(records, room.key), now, ids, correlationId);
      var done := RecalculateRoom(RecordOf(records, room.key), room, bookings, policy, now, ids, correlationId);
      if room.key !in affected {
        RollsBackExactly(rest, affected, bookings, policy, records, outbox, now, ids, correlationId);
      } else if done.RoomDone? {
        var records' := records[room.key := done.record];
        assert forall r :: r in rest ==> RecordOf(records', r.key) == RecordOf(records, r.key);
        RollsBackExactly(rest, affected, bookings, policy, records', outbox + done.messages, now, ids, correlationId);
      }
    }
  }

  /** With overnight stays no evaluation is ever rolled back, whatever commands and ticks went before. */
  lemma OvernightRunsCommit(rooms: seq<Room>, policy: Policy, t: Tables, affected: set<string>, bookings: seq<Booking>,
                            now: int, ids: RowIds, correlationId: int)
    requires policy.Valid() && RegistryOk(rooms) && Reached(rooms, policy, t)
    requires forall b :: b in bookings ==> OvernightStay(b)
    ensures RecalculateRooms(rooms, affected, bookings, policy, t.rooms, t.outbox, now, ids, correlationId).Recalculated?
  {
    hide RecordOk, RecalculateRooms, EvaluateRoom;
    ReachedIsOk(rooms, policy, t);
    forall room | room in rooms
      ensures RecordOk(RecordOf(t.rooms, room.key), policy)
      ensures !Blocks(room, bookings, policy, RecordOf(t.rooms, room.key), now)
    {
      var record := RecordOf(t.rooms, room.key);
      assert RoomOk(room.key, record, t.outbox, policy);
      EvaluationShape(room, bookings, now, policy, ActiveOverride(LatestOverride(record), now));
      var booking := EvaluationOf(record, room, bookings, policy, now).booking;
      if booking.Some? {
        NightBeforeCheckout(booking.value, policy);
      }
    }
    RollsBackExactly(rooms, affected, bookings, policy, t.rooms, t.outbox, now, ids, correlationId);
  }
}
