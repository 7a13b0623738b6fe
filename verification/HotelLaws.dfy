/**
 What becomes of overrides over a run, and why policy ticks do not churn.
 */
module HotelLaws {
  import opened Domain
  import opened Sequences
  import opened StateMachine
  import opened Engine
  import opened Store
  import opened Control
  import opened ClockSync
  import opened DbSync
  import opened HotelRuns

  // The end of an override

  /** No override is in force, and none can come into force without a new command. */
  predicate Ended(record: RoomRecord) {
    var latest := LatestOverride(record);
    latest.None? || latest.value.controlMode.Automatic?
  }

  lemma EndedMeansAutomatic(record: RoomRecord, room: Room, bookings: seq<Booking>, policy: Policy, now: int)
    requires Ended(record)
    ensures !EvaluationOf(record, room, bookings, policy, now).phase.OverridePhase?
    ensures ActiveOverride(LatestOverride(record), now).None?
  {
    EvaluationShape(room, bookings, now, policy, None);
  }

  /** After a recalculation the override has ended exactly when the room was not found under it. */
  lemma RecalculationEndsOverride(record: RoomRecord, room: Room, bookings: seq<Booking>, policy: Policy, now: int,
                                  ids: RowIds, correlationId: int)
    requires RecordOk(record, policy) && room.key != "" && Timely(record, room.key, now, ids)
    requires RecalculateRoom(record, room, bookings, policy, now, ids, correlationId).RoomDone?
    ensures Ended(RecalculateRoom(record, room, bookings, policy, now, ids, correlationId).record)
       <==> !EvaluationOf(record, room, bookings, policy, now).phase.OverridePhase?
  {
    hide RecalculateRoom, EvaluateRoom, DeriveRoomIntent;
    ChainAlwaysDerives(record, room, bookings, policy, now, correlationId);
    RecalculationShape(record, room, bookings, policy, now, ids, correlationId);
    var state := EvaluationOf(record, room, bookings, policy, now);
    var row := AutomaticRow(now, ids.override_(room.key));
    LatestAppend(NewerOverride(), record.overrides, row);
    assert record.overrides + [] == record.overrides;
    if Ended(record) {
      EndedMeansAutomatic(record, room, bookings, policy, now);
    }
  }

  lemma EndedStaysEnded(rooms: seq<Room>, affected: set<string>, bookings: seq<Booking>, policy: Policy, t: Tables,
                        now: int, ids: RowIds, correlationId: int, key: string)
    requires RegistryOk(rooms) && TablesOk(t, policy) && Ended(RecordOf(t.rooms, key))
    requires forall room :: room in rooms && room.key in affected ==> Timely(RecordOf(t.rooms, room.key), room.key, now, ids)
    requires RecalculateRooms(rooms, affected, bookings, policy, t.rooms, t.outbox, now, ids, correlationId).Recalculated?
    ensures Ended(RecordOf(RecalculateRooms(rooms, affected, bookings, policy, t.rooms, t.outbox, now, ids, correlationId).rooms, key))
  {
    hide RecalculateRooms, RecalculateRoom, RecordOk, Timely, Ended;
    assert RoomOk(key, RecordOf(t.rooms, key), t.outbox, policy);
    if key in AllKeys(rooms) * affected {
      var room :| room in rooms && room.key == key;
      assert room.key != "";
      RoomsAreIndependent(rooms, affected, bookings, policy, t.rooms, t.outbox, now, ids, correlationId, room);
      RecalculationEndsOverride(RecordOf(t.rooms, key), room, bookings, policy, now, ids, correlationId);
      EndedMeansAutomatic(RecordOf(t.rooms, key), room, bookings, policy, now);
    } else {
      OthersUntouched(rooms, affected, bookings, policy, t.rooms, t.outbox, now, ids, correlationId, key);
    }
  }

  /** The step is an accepted command that puts the room under a new override. */
  predicate StartsOverride(rooms: seq<Room>, policy: Policy, t: Tables, step: Step, key: string) {
    && step.Commanded?
    && step.roomKey == key
    && var built := BuildRow(RecordOf(t.rooms, key), t.bookings, step.command, policy, step.now, step.id);
       built.Built? && !built.row.controlMode.Automatic?
  }

  lemma StepKeepsEnded(rooms: seq<Room>, policy: Policy, t: Tables, step: Step, key: string)
    requires policy.Valid() && RegistryOk(rooms) && TablesOk(t, policy) && OnTime(rooms, t, step)
    requires Ended(RecordOf(t.rooms, key)) && !StartsOverride(rooms, policy, t, step, key)
    ensures Ended(RecordOf(Advance(rooms, policy, t, step).rooms, key))
  {
    hide RecalculateRooms, TablesOk, Timely, SyncBookings, BuildRow;
    match step {
      case Commanded(roomKey, command, now, id) =>
        var record := RecordOf(t.rooms, roomKey);
        var built := BuildRow(record, t.bookings, command, policy, now, id);
        if built.Built? {
          LatestAppend(NewerOverride(), record.overrides, built.row);
        }
      case Synchronized(result, ids, correlationId) =>
        var st := SyncBookings(rooms, SyncState(t.bookings, {}), result.bookings, result.finishedAt);
        if result.success && RecalculateRooms(rooms, st.affected, Loaded(st.bookings), policy, t.rooms, t.outbox, result.finishedAt,
                                              ids, correlationId).Recalculated? {
          EndedStaysEnded(rooms, st.affected, Loaded(st.bookings), policy, t, result.finishedAt, ids, correlationId, key);
        }
      case Evaluated(keys, now, ids, correlationId) =>
        if RecalculateRooms(rooms, keys, Loaded(t.bookings), policy, t.rooms, t.outbox, now, ids, correlationId).Recalculated? {
          EndedStaysEnded(rooms, keys, Loaded(t.bookings), policy, t, now, ids, correlationId, key);
        }
    }
  }

  /**
   No revival: once an override has ended, the room is not found under manual control through any sequence of
   synchronizations, moves, ticks and commands, with whatever bookings, until a command starts a new override.
   */
  lemma {:induction false} NoRevival(rooms: seq<Room>, policy: Policy, t: Tables, steps: seq<Step>, room: Room,
                                     bookings: seq<Booking>, now: int)
    requires policy.Valid() && RegistryOk(rooms) && TablesOk(t, policy) && RunOnTime(rooms, policy, t, steps)
    requires Ended(RecordOf(t.rooms, room.key))
    requires forall i :: 0 <= i < |steps| ==> !StartsOverride(rooms, policy, RunFrom(rooms, policy, t, steps[..i]), steps[i], room.key)
    ensures Ended(RecordOf(RunFrom(rooms, policy, t, steps).rooms, room.key))
    ensures !EvaluationOf(RecordOf(RunFrom(rooms, policy, t, steps).rooms, room.key), room, bookings, policy, now).phase.OverridePhase?
  {
    hide TablesOk, Advance, OnTime, StartsOverride, Ended, EvaluationOf;
    if steps != [] {
      var earlier := steps[..|steps| - 1];
      EarlierOnTime(rooms, policy, t, steps);
      forall i | 0 <= i < |earlier|
        ensures !StartsOverride(rooms, policy, RunFrom(rooms, policy, t, earlier[..i]), earlier[i], room.key)
      {
        assert earlier[..i] == steps[..i];
      }
      NoRevival(rooms, policy, t, earlier, room, bookings, now);
      RunKeepsTables(rooms, policy, t, earlier);
      StepKeepsEnded(rooms, policy, RunFrom(rooms, policy, t, earlier), steps[|steps| - 1], room.key);
    }
    EndedMeansAutomatic(RecordOf(RunFrom(rooms, policy, t, steps).rooms, room.key), room, bookings, policy, now);
  }

  /**
   No carry-over: in every reachable record an override is in force only before its own end; one until
   checkout only while its own booking is the selected one.
   */
  lemma OverrideInForce(rooms: seq<Room>, policy: Policy, t: Tables, room: Room, bookings: seq<Booking>, now: int)
    requires policy.Valid() && RegistryOk(rooms) && Reached(rooms, policy, t)
    requires EvaluationOf(RecordOf(t.rooms, room.key), room, bookings, policy, now).phase.OverridePhase?
    ensures var e := EvaluationOf(RecordOf(t.rooms, room.key), room, bookings, policy, now);
            var latest := LatestOverride(RecordOf(t.rooms, room.key));
            && latest.Some? && e.booking.Some? && e.booking.value in bookings
            && !latest.value.controlMode.Automatic?
            && (if latest.value.untilCheckout then
                  && latest.value.bookingId == Some(e.booking.value.id)
                  && latest.value.checkoutAt.Some? && now < latest.value.checkoutAt.value
                else
                  && latest.value.expiresAt.Some? && now < latest.value.expiresAt.value)
  {
    hide RecordOk, Latest, EvaluateRoom;
    ReachedIsOk(rooms, policy, t);
    var record := RecordOf(t.rooms, room.key);
    assert RoomOk(room.key, record, t.outbox, policy);
    LatestRows(record, policy);
    EvaluationShape(room, bookings, now, policy, ActiveOverride(LatestOverride(record), now));
  }

  /** The intent says what the override row says, its target moved into the policy's range. */
  predicate FollowsRow(intent: Intent, row: OverrideRow, policy: Policy) {
    && intent.controlMode == row.controlMode
    && intent.hvac.mode == row.hvacMode
    && (intent.hvac.enabled <==> !row.hvacMode.HvacOff?)
    && (intent.convectors <==> !row.hvacMode.HvacOff?)
    && (intent.hvac.target.Some? <==> row.target.Some?)
    && (row.target.Some? ==> Nearest(policy, row.target.value, intent.hvac.target.value))
    && (intent.waterHeater <==> row.waterHeater == Some(true))
    && intent.expiresAt == row.expiresAt
  }

  /** Under manual control the room's intent is that of its newest override row. */
  lemma OverrideRowIsFollowed(record: RoomRecord, room: Room, bookings: seq<Booking>, policy: Policy, now: int, correlationId: int)
    requires policy.Valid() && EvaluationOf(record, room, bookings, policy, now).phase.OverridePhase?
    requires DerivationOf(record, room, bookings, policy, now, correlationId).Derived?
    ensures LatestOverride(record).Some?
    ensures FollowsRow(DerivationOf(record, room, bookings, policy, now, correlationId).intent, LatestOverride(record).value, policy)
  {
    hide EvaluateRoom, DeriveRoomIntent, Latest;
    var override := ActiveOverride(LatestOverride(record), now);
    EvaluationShape(room, bookings, now, policy, override);
    OverrideIsTheRow(LatestOverride(record).value, now);
    IntentOfPhase(EvaluationOf(record, room, bookings, policy, now), policy, override, correlationId);
  }

  // Equal instants

  /**
   A command and the evaluation after it share one instant. If the evaluation ends the override at once, its
   automatic row is the newest one exactly when its random id is the greater of the two.
   */
  lemma TieDecides(record: RoomRecord, row: OverrideRow, room: Room, bookings: seq<Booking>, policy: Policy,
                   ids: RowIds, correlationId: int)
    requires LatestOverride(record) == Some(row) && !row.controlMode.Automatic? && ids.override_(room.key) != row.id
    requires !EvaluationOf(record, room, bookings, policy, row.startsAt).phase.OverridePhase?
    requires RecalculateRoom(record, room, bookings, policy, row.startsAt, ids, correlationId).RoomDone?
    ensures Ended(RecalculateRoom(record, room, bookings, policy, row.startsAt, ids, correlationId).record)
       <==> row.id < ids.override_(room.key)
  {
    hide EvaluateRoom, DeriveRoomIntent;
    LatestAppend(NewerOverride(), record.overrides, AutomaticRow(row.startsAt, ids.override_(room.key)));
  }

  lemma EmptyRoomIsVacant(room: Room, policy: Policy, now: int, override: Option<ManualOverride>)
    requires room.enabled && room.key != ""
    ensures EvaluateRoom(room, [], now, policy, override).phase.Vacant?
    ensures DeriveRoomIntent(EvaluateRoom(room, [], now, policy, override), policy, override, 0).Derived?
  {
  }

  lemma GuestIsSelected(room: Room, policy: Policy, guest: Booking, now: int, o: ManualOverride)
    requires room.enabled && guest.status.Expected? && IsCandidate(room, DateOf(now))(guest) && o.IsActive(now, guest.id)
    ensures EvaluateRoom(room, [guest], now, policy, Some(o)).phase.OverridePhase?
  {
    FilterOne(IsCandidate(room, DateOf(now)), guest);
    FilterOne(IsUnknown(room), guest);
    FirstFrontrunnerIsSelected([guest], policy);
  }

  /** With the smaller id the automatic row of a vacant room does not become the newest one. */
  lemma LostTie(record: RoomRecord, row: OverrideRow, room: Room, policy: Policy, ids: RowIds)
    requires room.enabled && room.key != "" && record == EmptyRecord.(overrides := [row])
    requires !row.controlMode.Automatic? && ids.override_(room.key) < row.id
    ensures var done := RecalculateRoom(record, room, [], policy, row.startsAt, ids, 0);
            && done.RoomDone?
            && LatestOverride(done.record) == LatestOverride(record) == Some(row)
            && EvaluationOf(record, room, [], policy, row.startsAt).phase.Vacant?
  {
    hide EvaluateRoom, DeriveRoomIntent, RoomStateHash, RowFrom, StateMessages;
    LatestAppend(NewerOverride(), [], row);
    assert [] + [row] == record.overrides;
    LatestAppend(NewerOverride(), record.overrides, AutomaticRow(row.startsAt, ids.override_(room.key)));
    EmptyRoomIsVacant(room, policy, row.startsAt, ActiveOverride(Some(row), row.startsAt));
  }

  /** With the smaller id an ended override comes back: a command for a vacant room takes effect on the next guest. */
  lemma RevivalByTie(room: Room, policy: Policy, ids: RowIds) returns (record: RoomRecord, row: OverrideRow, guest: Booking)
    requires room.enabled && room.key != "" && ids.override_(room.key) == 0
    ensures BuildRow(EmptyRecord, [], SetMode(Some(ForcedOff)), policy, 0, 1) == Built(row)
    ensures record == EmptyRecord.(overrides := [row])
    ensures var done := RecalculateRoom(record, room, [], policy, 0, ids, 0);
            && done.RoomDone?
            && EvaluationOf(record, room, [], policy, 0).phase.Vacant?
            && EvaluationOf(done.record, room, [guest], policy, 1).phase.OverridePhase?
  {
    hide EvaluateRoom, DeriveRoomIntent, RecalculateRoom, Latest;
    row := BuildRow(EmptyRecord, [], SetMode(Some(ForcedOff)), policy, 0, 1).row;
    record := EmptyRecord.(overrides := [row]);
    guest := Booking("b", Expected, 1, 2, None, Some(room.key), "");
    LostTie(record, row, room, policy, ids);
    GuestIsSelected(room, policy, guest, 1, ActiveOverride(Some(row), 1).value);
  }

  /** The intent that a recalculation emits, if it adds a state row. */
  predicate Emits(record: RoomRecord, room: Room, bookings: seq<Booking>, policy: Policy, now: int, ids: RowIds, correlationId: int, intent: Intent) {
    var done := RecalculateRoom(record, room, bookings, policy, now, ids, correlationId);
    done.RoomDone? && done.record.states != record.states && IntentState(intent) in done.messages
  }

  /** A row added now becomes the newest state. */
  predicate BecomesNewest(record: RoomRecord, key: string, now: int, ids: RowIds) {
    var latest := LatestState(record);
    || latest.None?
    || latest.value.createdAt < now
    || (latest.value.createdAt == now && latest.value.id <= ids.state(key))
  }

  lemma EmittedVersion(record: RoomRecord, room: Room, bookings: seq<Booking>, policy: Policy, now: int, ids: RowIds, correlationId: int, intent: Intent)
    requires room.key != "" && Emits(record, room, bookings, policy, now, ids, correlationId, intent)
    ensures var done := RecalculateRoom(record, room, bookings, policy, now, ids, correlationId);
            && done.RoomDone?
            && intent.version == NextIntentVersion(LatestState(record))
            && |done.record.states| == |record.states| + 1
            && done.record.states[..|record.states|] == record.states
            && var row := done.record.states[|record.states|];
               row.version == intent.version && row.createdAt == now && row.id == ids.state(room.key)
  {
    hide EvaluateRoom, DeriveRoomIntent, Latest;
    EvaluatesItsRoom(record, room, bookings, policy, now, correlationId);
  }

  /**
   A recalculation that emits an intent uses its version up exactly when its row becomes the newest one: when it
   is later than the newest row or, at the same instant, has no smaller random id.
   */
  lemma VersionAdvancesExactly(record: RoomRecord, room: Room, bookings: seq<Booking>, policy: Policy, now: int, ids: RowIds,
                               correlationId: int, intent: Intent)
    requires room.key != "" && Emits(record, room, bookings, policy, now, ids, correlationId, intent)
    ensures var after := RecalculateRoom(record, room, bookings, policy, now, ids, correlationId).record;
            && (NextIntentVersion(LatestState(after)) == NextIntentVersion(LatestState(record)) + 1 <==>
                BecomesNewest(record, room.key, now, ids))
            && (!BecomesNewest(record, room.key, now, ids) ==> LatestState(after) == LatestState(record))
  {
    hide RecalculateRoom, Emits;
    EmittedVersion(record, room, bookings, policy, now, ids, correlationId, intent);
    var after := RecalculateRoom(record, room, bookings, policy, now, ids, correlationId).record;
    LatestAppend(NewerState(), record.states, after.states[|record.states|]);
    assert after.states == record.states + [after.states[|record.states|]];
  }

  /** Two intents that follow each other share one version exactly when the first one's row did not become the newest. */
  lemma VersionIsReusedExactly(record: RoomRecord, room: Room, policy: Policy,
                               bookings: seq<Booking>, now: int, ids: RowIds, correlationId: int, first: Intent,
                               laterBookings: seq<Booking>, later: int, laterIds: RowIds, laterCorrelationId: int, second: Intent)
    requires room.key != "" && Emits(record, room, bookings, policy, now, ids, correlationId, first)
    requires var after := RecalculateRoom(record, room, bookings, policy, now, ids, correlationId).record;
             Emits(after, room, laterBookings, policy, later, laterIds, laterCorrelationId, second)
    ensures second.version == first.version <==> !BecomesNewest(record, room.key, now, ids)
  {
    hide RecalculateRoom, Emits, BecomesNewest;
    EmittedVersion(record, room, bookings, policy, now, ids, correlationId, first);
    VersionAdvancesExactly(record, room, bookings, policy, now, ids, correlationId, first);
    EmittedVersion(RecalculateRoom(record, room, bookings, policy, now, ids, correlationId).record, room, laterBookings, policy,
                   later, laterIds, laterCorrelationId, second);
  }

  /** A guest who is in the room until tomorrow, and one who is expected. */
  lemma GuestPhases(room: Room, policy: Policy, guest: Booking, now: int)
    requires room.enabled && room.key != "" && policy.Valid()
    requires IsCandidate(room, DateOf(now))(guest) && OvernightStay(guest) && now < CheckoutAt(guest, policy)
    ensures var e := EvaluateRoom(room, [guest], now, policy, None);
            && (guest.status.CheckedIn? ==> e.phase.Occupied?)
            && (guest.status.Expected? ==> e.phase.PreArrival? || e.phase.Reserved?)
            && DeriveRoomIntent(e, policy, None, 0).Derived?
  {
    FilterOne(IsCandidate(room, DateOf(now)), guest);
    FilterOne(IsUnknown(room), guest);
    FirstFrontrunnerIsSelected([guest], policy);
    NightBeforeCheckout(guest, policy);
  }

  /** A recalculation without overrides, of a room whose newest state shows another phase, emits that phase's intent. */
  lemma NewPhaseIsEmitted(record: RoomRecord, room: Room, bookings: seq<Booking>, policy: Policy, now: int, ids: RowIds)
    returns (intent: Intent)
    requires room.key != "" && record.overrides == []
    requires DeriveRoomIntent(EvaluateRoom(room, bookings, now, policy, None), policy, None, 0).Derived?
    requires LatestState(record).Some? ==>
               LatestState(record).value.hash.phase != EvaluateRoom(room, bookings, now, policy, None).phase
    ensures Emits(record, room, bookings, policy, now, ids, 0, intent)
    ensures intent.phase == EvaluateRoom(room, bookings, now, policy, None).phase
    ensures var done := RecalculateRoom(record, room, bookings, policy, now, ids, 0);
            && done.record.overrides == []
            && done.record.states[..|record.states|] == record.states && |done.record.states| == |record.states| + 1
            && done.record.states[|record.states|].hash.phase == intent.phase
  {
    hide EvaluateRoom, DeriveRoomIntent;
    var e := EvaluateRoom(room, bookings, now, policy, None);
    var d := DeriveRoomIntent(e, policy, None, 0);
    intent := d.intent.(version := NextIntentVersion(LatestState(record)));
    DerivedPhase(e, policy, 0);
    var row := RowFrom(e, Some(intent), LatestState(record), now, ids.state(room.key));
    assert |record.states + [row]| != |record.states|;
    var done := RecalculateRoom(record, room, bookings, policy, now, ids, 0);
    assert done.messages[1] == IntentState(intent);
  }

  lemma DerivedPhase(e: Evaluation, policy: Policy, correlationId: int)
    requires DeriveRoomIntent(e, policy, None, correlationId).Derived?
    ensures DeriveRoomIntent(e, policy, None, correlationId).intent.phase == e.phase
  {
  }

  /**
   One version with two payloads: a synchronization at the instant of the newest state, with the smaller id, and a
   later one, give the intents for an expected guest and for the guest in the room one and the same version.
   */
  lemma VersionTie(room: Room, policy: Policy, ids: RowIds, tiedIds: RowIds, laterIds: RowIds)
    returns (record: RoomRecord, expected: Booking, present: Booking, first: Intent, second: Intent)
    requires room.enabled && room.key != "" && policy.Valid() && tiedIds.state(room.key) < ids.state(room.key)
    ensures record == RecalculateRoom(EmptyRecord, room, [], policy, 0, ids, 0).record
    ensures RecalculateRoom(EmptyRecord, room, [], policy, 0, ids, 0).RoomDone?
    ensures OvernightStay(expected) && present == expected.(status := CheckedIn)
    ensures Emits(record, room, [expected], policy, 0, tiedIds, 0, first)
    ensures var after := RecalculateRoom(record, room, [expected], policy, 0, tiedIds, 0).record;
            Emits(after, room, [present], policy, 1, laterIds, 0, second)
    ensures first.roomKey == second.roomKey == room.key
    ensures first.version == second.version && first.StablePayload() != second.StablePayload()
  {
    hide RecalculateRoom, EvaluateRoom, DeriveRoomIntent;
    EmptyRoomIsVacant(room, policy, 0, None);
    var vacant := NewPhaseIsEmitted(EmptyRecord, room, [], policy, 0, ids);
    record := RecalculateRoom(EmptyRecord, room, [], policy, 0, ids, 0).record;
    EmittedVersion(EmptyRecord, room, [], policy, 0, ids, 0, vacant);
    LatestAppend(NewerState(), [], record.states[0]);
    assert record.states == [] + [record.states[0]];
    expected := Booking("b", Expected, 1, 2, None, Some(room.key), "");
    present := expected.(status := CheckedIn);
    GuestPhases(room, policy, expected, 0);
    first := NewPhaseIsEmitted(record, room, [expected], policy, 0, tiedIds);
    var after := RecalculateRoom(record, room, [expected], policy, 0, tiedIds, 0).record;
    VersionAdvancesExactly(record, room, [expected], policy, 0, tiedIds, 0, first);
    GuestPhases(room, policy, present, 1);
    second := NewPhaseIsEmitted(after, room, [present], policy, 1, laterIds);
    VersionIsReusedExactly(record, room, policy, [expected], 0, tiedIds, 0, first, [present], 1, laterIds, 0, second);
    EmittedRoom(record, room, [expected], policy, 0, tiedIds, 0, first);
    EmittedRoom(after, room, [present], policy, 1, laterIds, 0, second);
  }

  lemma EmittedRoom(record: RoomRecord, room: Room, bookings: seq<Booking>, policy: Policy, now: int, ids: RowIds, correlationId: int, intent: Intent)
    requires Emits(record, room, bookings, policy, now, ids, correlationId, intent)
    ensures intent.roomKey == room.key
  {
    hide EvaluateRoom, DeriveRoomIntent, Latest;
    EvaluatesItsRoom(record, room, bookings, policy, now, correlationId);
  }

  // Ticks

  /** An override that does not put the room under manual control makes no difference at all. */
  lemma InactiveOverrideIsIgnored(room: Room, bookings: seq<Booking>, now: int, policy: Policy, override: Option<ManualOverride>, correlationId: int)
    requires !EvaluateRoom(room, bookings, now, policy, override).phase.OverridePhase?
    ensures EvaluateRoom(room, bookings, now, policy, override) == EvaluateRoom(room, bookings, now, policy, None)
    ensures DeriveRoomIntent(EvaluateRoom(room, bookings, now, policy, override), policy, override, correlationId)
         == DeriveRoomIntent(EvaluateRoom(room, bookings, now, policy, None), policy, None, correlationId)
  {
  }

  /** The room was recalculated at an instant and found in a phase that lasts beyond a later one. */
  ghost predicate Settled(record: RoomRecord, room: Room, bookings: seq<Booking>, policy: Policy, now: int, later: int) {
    var e := EvaluationOf(record, room, bookings, policy, now);
    Timed(e.phase) && now <= later && (e.expiresAt.Some? ==> later < e.expiresAt.value)
  }

  lemma SettledLater(record: RoomRecord, room: Room, bookings: seq<Booking>, policy: Policy, now: int, later: int,
                     correlationId: int, laterCorrelationId: int)
    requires policy.Valid() && room.key != "" && forall b :: b in bookings ==> ValidDates(b)
    requires Settled(record, room, bookings, policy, now, later)
    requires DerivationOf(record, room, bookings, policy, now, correlationId).Derived?
    ensures var before := EvaluateRoom(room, bookings, now, policy, None);
            var after := EvaluateRoom(room, bookings, later, policy, None);
            var derived := DeriveRoomIntent(after, policy, None, laterCorrelationId);
            && derived.Derived?
            && !after.phase.OverridePhase?
            && (forall version: int ::
                 (RoomStateHash(after, Some(derived.intent.(version := version)))
                  == RoomStateHash(EvaluationOf(record, room, bookings, policy, now),
                                   Some(DerivationOf(record, room, bookings, policy, now, correlationId).intent))))
  {
    hide EvaluateRoom, DeriveRoomIntent, Latest;
    var override := ActiveOverride(LatestOverride(record), now);
    EvaluationShape(room, bookings, now, policy, override);
    InactiveOverrideIsIgnored(room, bookings, now, policy, override, correlationId);
    ExpiryIsStable(room, bookings, now, later, policy, None);
    DerivationIsStable(room, bookings, now, later, policy, None, correlationId, laterCorrelationId);
  }

  /** The hash does not see an intent's version. */
  lemma HashIgnoresVersion(state: Evaluation, intent: Intent, version: int)
    ensures RoomStateHash(state, Some(intent.(version := version))) == RoomStateHash(state, Some(intent))
  {
  }

  /**
   The expiry is a horizon for ticks: recalculating a settled room again before it, with the same bookings,
   adds no row and no message.
   */
  lemma TickIsQuiet(record: RoomRecord, room: Room, bookings: seq<Booking>, policy: Policy, now: int, ids: RowIds, correlationId: int,
                    later: int, laterIds: RowIds, laterCorrelationId: int)
    requires policy.Valid() && RecordOk(record, policy) && room.key != "" && Timely(record, room.key, now, ids)
    requires forall b :: b in bookings ==> ValidDates(b)
    requires RecalculateRoom(record, room, bookings, policy, now, ids, correlationId).RoomDone?
    requires Settled(record, room, bookings, policy, now, later)
    ensures var after := RecalculateRoom(record, room, bookings, policy, now, ids, correlationId).record;
            && after.states != []
            && RecalculateRoom(after, room, bookings, policy, later, laterIds, laterCorrelationId) == RoomDone(after, [])
  {
    hide EvaluateRoom, DeriveRoomIntent, RecalculateRoom, RecordOk, Timely, Latest, RoomStateHash, EvaluationOf, DerivationOf;
    var done := RecalculateRoom(record, room, bookings, policy, now, ids, correlationId);
    ChainAlwaysDerives(record, room, bookings, policy, now, correlationId);
    RecalculationShape(record, room, bookings, policy, now, ids, correlationId);
    RecalculationKeepsRecord(record, room, bookings, policy, now, ids, correlationId);
    RecalculationEndsOverride(record, room, bookings, policy, now, ids, correlationId);
    LatestRows(record, policy);
    LatestRows(done.record, policy);
    var intent := DerivationOf(record, room, bookings, policy, now, correlationId).intent;
    HashIgnoresVersion(EvaluationOf(record, room, bookings, policy, now), intent, NextIntentVersion(LatestState(record)));
    SettledLater(record, room, bookings, policy, now, later, correlationId, laterCorrelationId);
    EndedMeansAutomatic(done.record, room, bookings, policy, later);
    SameHashIsQuiet(done.record, room, bookings, policy, later, laterIds, laterCorrelationId);
  }

  /** A recalculation that finds the stored hash again, with no override to end, changes nothing. */
  lemma SameHashIsQuiet(record: RoomRecord, room: Room, bookings: seq<Booking>, policy: Policy, now: int, ids: RowIds, correlationId: int)
    requires Ended(record) && LatestState(record).Some?
    requires var e := EvaluateRoom(room, bookings, now, policy, None);
             var d := DeriveRoomIntent(e, policy, None, correlationId);
             && d.Derived?
             && LatestState(record).value.hash == RoomStateHash(e, Some(d.intent.(version := NextIntentVersion(LatestState(record)))))
    ensures RecalculateRoom(record, room, bookings, policy, now, ids, correlationId) == RoomDone(record, [])
  {
    hide EvaluateRoom, DeriveRoomIntent, RoomStateHash, Latest;
    assert record.overrides + [] == record.overrides;
  }

  lemma {:induction false} QuietRooms(rooms: seq<Room>, affected: set<string>, bookings: seq<Booking>, policy: Policy,
                                      records: map<string, RoomRecord>, outbox: seq<Message>, now: int, ids: RowIds, correlationId: int)
    requires forall room :: room in rooms && room.key in affected ==>
               && room.key in records
               && RecalculateRoom(records[room.key], room, bookings, policy, now, ids, correlationId) == RoomDone(records[room.key], [])
    ensures RecalculateRooms(rooms, affected, bookings, policy, records, outbox, now, ids, correlationId) == Recalculated(records, outbox)
  {
    hide RecalculateRoom;
    if rooms != [] {
      QuietRooms(rooms[1..], affected, bookings, policy, records, outbox, now, ids, correlationId);
      if rooms[0].key in affected {
        assert records[rooms[0].key := records[rooms[0].key]] == records;
        assert outbox + [] == outbox;
      }
    }
  }

  /** Every room to be evaluated is settled, from the evaluation at an instant to a later one. */
  ghost predicate AllSettled(rooms: seq<Room>, policy: Policy, t: Tables, keys: set<string>, now: int, later: int) {
    forall room :: room in rooms && room.key in keys ==>
      Settled(RecordOf(t.rooms, room.key), room, Loaded(t.bookings), policy, now, later)
  }

  /** Ticks do not churn: after an evaluation, another one of these rooms within their horizons leaves the tables as they are. */
  lemma TicksDoNotChurn(rooms: seq<Room>, policy: Policy, t: Tables, keys: set<string>, now: int, ids: RowIds, correlationId: int,
                        later: int, laterKeys: set<string>, laterIds: RowIds, laterCorrelationId: int)
    requires policy.Valid() && RegistryOk(rooms) && Reached(rooms, policy, t)
    requires OnTime(rooms, t, Evaluated(keys, now, ids, correlationId))
    requires forall b :: b in Loaded(t.bookings) ==> ValidDates(b)
    requires RecalculateRooms(rooms, keys, Loaded(t.bookings), policy, t.rooms, t.outbox, now, ids, correlationId).Recalculated?
    requires AllSettled(rooms, policy, t, keys, now, later) && laterKeys <= keys
    ensures var after := EvaluateRooms(t, rooms, keys, policy, now, ids, correlationId);
            EvaluateRooms(after, rooms, laterKeys, policy, later, laterIds, laterCorrelationId) == after
  {
    hide RecalculateRoom, RecalculateRooms, RecordOk, Settled, Timely;
    ReachedIsOk(rooms, policy, t);
    var bookings := Loaded(t.bookings);
    var after := EvaluateRooms(t, rooms, keys, policy, now, ids, correlationId);
    forall room | room in rooms && room.key in laterKeys
      ensures room.key in after.rooms
      ensures RecalculateRoom(after.rooms[room.key], room, bookings, policy, later, laterIds, laterCorrelationId)
           == RoomDone(after.rooms[room.key], [])
    {
      var record := RecordOf(t.rooms, room.key);
      assert RoomOk(room.key, record, t.outbox, policy);
      RoomsAreIndependent(rooms, keys, bookings, policy, t.rooms, t.outbox, now, ids, correlationId, room);
      TickIsQuiet(record, room, bookings, policy, now, ids, correlationId, later, laterIds, laterCorrelationId);
    }
    QuietRooms(rooms, laterKeys, bookings, policy, after.rooms, after.outbox, later, laterIds, laterCorrelationId);
  }

  // Ticks of rooms in any phase

  /** The room is evaluated to the same state again, apart from the instant it holds from. */
  ghost predicate Repeats(record: RoomRecord, after: RoomRecord, room: Room, bookings: seq<Booking>, policy: Policy, now: int, later: int) {
    EvaluationOf(after, room, bookings, policy, later).(effectiveFrom := 0)
    == EvaluationOf(record, room, bookings, policy, now).(effectiveFrom := 0)
  }

  /** Two derivations from the same state, with the same override where it counts, differ in start and correlation id only. */
  lemma SameStateSameHash(before: Evaluation, after: Evaluation, policy: Policy, override: Option<ManualOverride>, laterOverride: Option<ManualOverride>,
                          correlationId: int, laterCorrelationId: int, version: int, laterVersion: int)
    requires after.(effectiveFrom := 0) == before.(effectiveFrom := 0)
    requires before.phase.OverridePhase? ==> laterOverride == override
    requires DeriveRoomIntent(before, policy, override, correlationId).Derived?
    requires DeriveRoomIntent(after, policy, laterOverride, laterCorrelationId).Derived?
    ensures var intent := DeriveRoomIntent(before, policy, override, correlationId).intent;
            var laterIntent := DeriveRoomIntent(after, policy, laterOverride, laterCorrelationId).intent;
            RoomStateHash(after, Some(laterIntent.(version := laterVersion))) == RoomStateHash(before, Some(intent.(version := version)))
  {
  }

  /** While a room is under manual control, the override is the one of its newest row, at every instant. */
  lemma SameOverrideInForce(record: RoomRecord, room: Room, bookings: seq<Booking>, policy: Policy, now: int, later: int)
    requires EvaluationOf(record, room, bookings, policy, now).phase.OverridePhase?
    requires EvaluationOf(record, room, bookings, policy, later).phase.OverridePhase?
    ensures ActiveOverride(LatestOverride(record), later) == ActiveOverride(LatestOverride(record), now)
  {
    hide EvaluateRoom, Latest;
    EvaluationShape(room, bookings, now, policy, ActiveOverride(LatestOverride(record), now));
    EvaluationShape(room, bookings, later, policy, ActiveOverride(LatestOverride(record), later));
  }

  /**
   A recalculation that finds the state of the one before, in whatever phase (vacant, due, overridden, forced off or
   timed), adds no row and no message: the hash does not see the instant, the version or the correlation id.
   */
  lemma RepeatIsQuiet(record: RoomRecord, room: Room, bookings: seq<Booking>, policy: Policy, now: int, ids: RowIds, correlationId: int,
                      later: int, laterIds: RowIds, laterCorrelationId: int)
    requires RecordOk(record, policy) && room.key != "" && Timely(record, room.key, now, ids)
    requires RecalculateRoom(record, room, bookings, policy, now, ids, correlationId).RoomDone?
    requires var after := RecalculateRoom(record, room, bookings, policy, now, ids, correlationId).record;
             && Repeats(record, after, room, bookings, policy, now, later)
             && RecalculateRoom(after, room, bookings, policy, later, laterIds, laterCorrelationId).RoomDone?
    ensures var after := RecalculateRoom(record, room, bookings, policy, now, ids, correlationId).record;
            && after.states != []
            && RecalculateRoom(after, room, bookings, policy, later, laterIds, laterCorrelationId) == RoomDone(after, [])
  {
    hide EvaluateRoom, DeriveRoomIntent, RecalculateRoom, RecordOk, Timely, Latest, RoomStateHash, ActiveOverride, EvaluationOf;
    var after := RecalculateRoom(record, room, bookings, policy, now, ids, correlationId).record;
    ChainAlwaysDerives(record, room, bookings, policy, now, correlationId);
    RecalculationShape(record, room, bookings, policy, now, ids, correlationId);
    RecalculationKeepsRecord(record, room, bookings, policy, now, ids, correlationId);
    RecalculationEndsOverride(record, room, bookings, policy, now, ids, correlationId);
    LatestRows(record, policy);
    LatestRows(after, policy);
    ChainAlwaysDerives(after, room, bookings, policy, later, laterCorrelationId);
    NotRaised(after, room, bookings, policy, later, laterIds, laterCorrelationId);
    var e := EvaluationOf(record, room, bookings, policy, now);
    SamePhase(e, EvaluationOf(after, room, bookings, policy, later));
    if e.phase.OverridePhase? {
      UnderOverride(record, room, bookings, policy, now);
      assert after.overrides == record.overrides;
      SameLatest(record, after);
      SameOverrideAgain(record, after, room, bookings, policy, now, later);
    }
    SameHash(record, after, room, bookings, policy, now, later, correlationId, laterCorrelationId,
             NextIntentVersion(LatestState(record)), NextIntentVersion(LatestState(after)));
    SameHashAgain(after, room, bookings, policy, later, laterIds, laterCorrelationId);
  }

  lemma NotRaised(record: RoomRecord, room: Room, bookings: seq<Booking>, policy: Policy, now: int, ids: RowIds, correlationId: int)
    requires RecalculateRoom(record, room, bookings, policy, now, ids, correlationId).RoomDone?
    ensures !DerivationOf(record, room, bookings, policy, now, correlationId).Raised?
  {
    hide EvaluateRoom, DeriveRoomIntent, Latest;
  }

  lemma SamePhase(before: Evaluation, after: Evaluation)
    requires after.(effectiveFrom := 0) == before.(effectiveFrom := 0)
    ensures after.phase == before.phase
  {
    assert after.(effectiveFrom := 0).phase == before.(effectiveFrom := 0).phase;
  }

  lemma SameLatest(record: RoomRecord, after: RoomRecord)
    requires after.overrides == record.overrides
    ensures LatestOverride(after) == LatestOverride(record)
  {
  }

  lemma UnderOverride(record: RoomRecord, room: Room, bookings: seq<Booking>, policy: Policy, now: int)
    requires EvaluationOf(record, room, bookings, policy, now).phase.OverridePhase?
    ensures !EndsOverride(LatestOverride(record), EvaluationOf(record, room, bookings, policy, now))
    ensures !Ended(record)
  {
    if Ended(record) {
      EndedMeansAutomatic(record, room, bookings, policy, now);
    }
  }

  lemma SameOverrideAgain(record: RoomRecord, after: RoomRecord, room: Room, bookings: seq<Booking>, policy: Policy, now: int, later: int)
    requires LatestOverride(after) == LatestOverride(record)
    requires EvaluationOf(record, room, bookings, policy, now).phase.OverridePhase?
    requires EvaluationOf(after, room, bookings, policy, later).phase.OverridePhase?
    ensures ActiveOverride(LatestOverride(after), later) == ActiveOverride(LatestOverride(record), now)
  {
    hide EvaluateRoom, Latest;
    SameOverrideInForce(record, room, bookings, policy, now, later);
  }

  lemma SameHash(record: RoomRecord, after: RoomRecord, room: Room, bookings: seq<Booking>, policy: Policy, now: int, later: int,
                 correlationId: int, laterCorrelationId: int, version: int, laterVersion: int)
    requires Repeats(record, after, room, bookings, policy, now, later)
    requires EvaluationOf(record, room, bookings, policy, now).phase.OverridePhase? ==>
               ActiveOverride(LatestOverride(after), later) == ActiveOverride(LatestOverride(record), now)
    requires DerivationOf(record, room, bookings, policy, now, correlationId).Derived?
    requires DerivationOf(after, room, bookings, policy, later, laterCorrelationId).Derived?
    ensures RoomStateHash(EvaluationOf(after, room, bookings, policy, later),
                          Some(DerivationOf(after, room, bookings, policy, later, laterCorrelationId).intent.(version := laterVersion)))
         == RoomStateHash(EvaluationOf(record, room, bookings, policy, now),
                          Some(DerivationOf(record, room, bookings, policy, now, correlationId).intent.(version := version)))
  {
    hide EvaluateRoom, DeriveRoomIntent, Latest, RoomStateHash, ActiveOverride;
    SameStateSameHash(EvaluationOf(record, room, bookings, policy, now), EvaluationOf(after, room, bookings, policy, later), policy,
                      ActiveOverride(LatestOverride(record), now), ActiveOverride(LatestOverride(after), later),
                      correlationId, laterCorrelationId, version, laterVersion);
  }

  /** A recalculation that finds the stored hash again and has no override to end changes nothing. */
  lemma SameHashAgain(record: RoomRecord, room: Room, bookings: seq<Booking>, policy: Policy, now: int, ids: RowIds, correlationId: int)
    requires DerivationOf(record, room, bookings, policy, now, correlationId).Derived? && LatestState(record).Some?
    requires !EndsOverride(LatestOverride(record), EvaluationOf(record, room, bookings, policy, now))
    requires LatestState(record).value.hash ==
             RoomStateHash(EvaluationOf(record, room, bookings, policy, now),
                           VersionedIntent(DerivationOf(record, room, bookings, policy, now, correlationId), LatestState(record)))
    ensures RecalculateRoom(record, room, bookings, policy, now, ids, correlationId) == RoomDone(record, [])
  {
    hide EvaluateRoom, DeriveRoomIntent, RoomStateHash, Latest;
    assert record.overrides + [] == record.overrides;
  }

  /** Every room to be evaluated again is found as it was. */
  ghost predicate AllRepeat(rooms: seq<Room>, policy: Policy, t: Tables, after: Tables, keys: set<string>, now: int, later: int) {
    forall room :: room in rooms && room.key in keys ==>
      Repeats(RecordOf(t.rooms, room.key), RecordOf(after.rooms, room.key), room, Loaded(t.bookings), policy, now, later)
  }

  /** After an evaluation, evaluating rooms again that are found as they were leaves the tables as they are, whatever their phases. */
  lemma RepeatedTicksDoNotChurn(rooms: seq<Room>, policy: Policy, t: Tables, keys: set<string>, now: int, ids: RowIds, correlationId: int,
                                later: int, laterKeys: set<string>, laterIds: RowIds, laterCorrelationId: int)
    requires policy.Valid() && RegistryOk(rooms) && Reached(rooms, policy, t)
    requires OnTime(rooms, t, Evaluated(keys, now, ids, correlationId))
    requires RecalculateRooms(rooms, keys, Loaded(t.bookings), policy, t.rooms, t.outbox, now, ids, correlationId).Recalculated?
    requires var after := EvaluateRooms(t, rooms, keys, policy, now, ids, correlationId);
             && AllRepeat(rooms, policy, t, after, laterKeys, now, later) && laterKeys <= keys
             && RecalculateRooms(rooms, laterKeys, Loaded(t.bookings), policy, after.rooms, after.outbox, later, laterIds, laterCorrelationId).Recalculated?
    ensures var after := EvaluateRooms(t, rooms, keys, policy, now, ids, correlationId);
            EvaluateRooms(after, rooms, laterKeys, policy, later, laterIds, laterCorrelationId) == after
  {
    hide RecalculateRoom, RecalculateRooms, RecordOk, Repeats, Timely;
    ReachedIsOk(rooms, policy, t);
    var bookings := Loaded(t.bookings);
    var after := EvaluateRooms(t, rooms, keys, policy, now, ids, correlationId);
    forall room | room in rooms && room.key in laterKeys
      ensures room.key in after.rooms
      ensures RecalculateRoom(after.rooms[room.key], room, bookings, policy, later, laterIds, laterCorrelationId)
           == RoomDone(after.rooms[room.key], [])
    {
      var record := RecordOf(t.rooms, room.key);
      assert RoomOk(room.key, record, t.outbox, policy);
      RoomsAreIndependent(rooms, keys, bookings, policy, t.rooms, t.outbox, now, ids, correlationId, room);
      RoomsAreIndependent(rooms, laterKeys, bookings, policy, after.rooms, after.outbox, later, laterIds, laterCorrelationId, room);
      RepeatIsQuiet(record, room, bookings, policy, now, ids, correlationId, later, laterIds, laterCorrelationId);
    }
    QuietRooms(rooms, laterKeys, bookings, policy, after.rooms, after.outbox, later, laterIds, laterCorrelationId);
  }
}
