/**
 Persisting a synchronization and recalculating the rooms it affects (app/clock/db_sync.py).

 A transaction is one step: it commits all of its changes, or none when an exception leaves it.
 */
module DbSync {
  import opened Domain
  import opened Sequences
  import opened StateMachine
  import opened Engine
  import opened Store
  import opened Control
  import opened ClockSync

  // Bookings and their assignments

  function RowOf(n: Booking): BookingRow {
    BookingRow(n.id, n.status, n.arrival, n.departure, n.payloadHash)
  }

  /** The place of the booking's record, or the place where it would be added. */
  function PlaceOf(bookings: seq<BookingRecord>, id: string): (k: nat)
    ensures k <= |bookings|
    ensures k < |bookings| ==> bookings[k].row.id == id
    ensures forall i :: 0 <= i < k ==> bookings[i].row.id != id
  {
    if bookings == [] then 0
    else if bookings[0].row.id == id then 0
    else 1 + PlaceOf(bookings[1..], id)
  }

  function CurrentPlace(rows: seq<AssignmentRow>): (k: nat)
    ensures k <= |rows|
    ensures k < |rows| ==> rows[k].current
    ensures forall i :: 0 <= i < k ==> !rows[i].current
  {
    if rows == [] then 0
    else if rows[0].current then 0
    else 1 + CurrentPlace(rows[1..])
  }

  function CurrentAssignment(rows: seq<AssignmentRow>): Option<AssignmentRow> {
    var k := CurrentPlace(rows);
    if k < |rows| then Some(rows[k]) else None
  }

  /** The booking as an evaluation sees it. */
  function Normalized(record: BookingRecord): Booking {
    var a := CurrentAssignment(record.assignments);
    Booking(record.row.id, record.row.status, record.row.arrival, record.row.departure,
            if a.Some? then a.value.clockRoomId else None, if a.Some? then a.value.roomNumber else None,
            record.row.payloadHash)
  }

  function Loaded(bookings: seq<BookingRecord>): (r: seq<Booking>)
    ensures |r| == |bookings|
    ensures forall i :: 0 <= i < |r| ==> r[i] == Normalized(bookings[i])
  {
    seq(|bookings|, i requires 0 <= i < |bookings| => Normalized(bookings[i]))
  }

  // Resolving rooms

  /** A dictionary built from a list: of several entries with one key, the last one counts. */
  function LastMatch<T>(keep: T -> bool, s: seq<T>): (r: Option<T>)
    ensures r.Some? ==> keep(r.value)
    ensures r.Some? ==> exists k :: 0 <= k < |s| && s[k] == r.value && forall i :: k < i < |s| ==> !keep(s[i])
    ensures r.None? ==> forall i :: 0 <= i < |s| ==> !keep(s[i])
  {
    if s == [] then None
    else
      var last := s[|s| - 1];
      if keep(last) then
        assert s[|s| - 1] == last;
        Some(last)
      else
        LastMatch(keep, s[..|s| - 1])
  }

  function HasClockIdOf(n: Booking): Room -> bool {
    (r: Room) => r.clockRoomId == n.roomId
  }

  function ResolveRoom(rooms: seq<Room>, n: Booking): Option<string> {
    var byClockId := if Truthy(n.roomId) then LastMatch(HasClockIdOf(n), rooms) else None;
    if byClockId.Some? then Some(byClockId.value.key)
    else if Truthy(n.roomNumber) && exists r :: r in rooms && Some(r.key) == n.roomNumber then n.roomNumber
    else None
  }

  // Synchronizing one booking

  datatype AssignmentChange = AssignmentChange(rows: seq<AssignmentRow>, affected: set<string>, currentRoom: Option<string>)

  function RoomSet(room: Option<string>): set<string> {
    if room.Some? then {room.value} else {}
  }

  function Closed(row: AssignmentRow, now: int): AssignmentRow {
    row.(current := false, removedAt := Some(now))
  }

  predicate SameIdentity(row: AssignmentRow, n: Booking) {
    row.clockRoomId == n.roomId && row.roomNumber == n.roomNumber
  }

  function AssignmentFor(n: Booking, room: Option<string>, now: int): AssignmentRow {
    AssignmentRow(room, n.roomId, n.roomNumber, now, None, true)
  }

  function SyncAssignment(rows: seq<AssignmentRow>, n: Booking, newRoom: Option<string>, now: int): AssignmentChange {
    var k := CurrentPlace(rows);
    if k == |rows| then
      if n.HasPhysicalRoom() then AssignmentChange(rows + [AssignmentFor(n, newRoom, now)], RoomSet(newRoom), newRoom)
      else AssignmentChange(rows, {}, None)
    else if !n.HasPhysicalRoom() then
      AssignmentChange(rows[k := Closed(rows[k], now)], RoomSet(rows[k].room), None)
    else if SameIdentity(rows[k], n) then
      if rows[k].room != newRoom then
        AssignmentChange(rows[k := rows[k].(room := newRoom)], RoomSet(rows[k].room) + RoomSet(newRoom), newRoom)
      else
        AssignmentChange(rows, {}, rows[k].room)
    else
      AssignmentChange(rows[k := Closed(rows[k], now)] + [AssignmentFor(n, newRoom, now)],
                       RoomSet(rows[k].room) + RoomSet(newRoom), newRoom)
  }

  datatype SyncState = SyncState(bookings: seq<BookingRecord>, affected: set<string>)

  /** The record of the booking before it is synchronized; a new one has no assignments. */
  function RecordBefore(bookings: seq<BookingRecord>, n: Booking): BookingRecord {
    var k := PlaceOf(bookings, n.id);
    if k < |bookings| then bookings[k] else BookingRecord(RowOf(n), [])
  }

  predicate Changed(bookings: seq<BookingRecord>, n: Booking) {
    PlaceOf(bookings, n.id) == |bookings| || RecordBefore(bookings, n).row.payloadHash != n.payloadHash
  }

  function PutRecord(bookings: seq<BookingRecord>, record: BookingRecord): seq<BookingRecord> {
    var k := PlaceOf(bookings, record.row.id);
    if k < |bookings| then bookings[k := record] else bookings + [record]
  }

  function SyncBooking(rooms: seq<Room>, st: SyncState, n: Booking, now: int): SyncState {
    var change := SyncAssignment(RecordBefore(st.bookings, n).assignments, n, ResolveRoom(rooms, n), now);
    SyncState(PutRecord(st.bookings, BookingRecord(RowOf(n), change.rows)),
              st.affected + change.affected + if Changed(st.bookings, n) then RoomSet(change.currentRoom) else {})
  }

  function SyncBookings(rooms: seq<Room>, st: SyncState, ns: seq<Booking>, now: int): SyncState {
    if ns == [] then st
    else SyncBooking(rooms, SyncBookings(rooms, st, ns[..|ns| - 1], now), ns[|ns| - 1], now)
  }

  // Recalculating one room

  /** What generates the ids of new rows, by room. */
  datatype RowIds = RowIds(state: string -> int, override_: string -> int)

  function RoomStateHash(state: Evaluation, intent: Option<Intent>): SemanticHash {
    SemanticHash(state.roomKey, state.phase,
                 if state.booking.Some? then Some(state.booking.value.(payloadHash := "")) else None,
                 state.needsAttention, state.attention, state.reason, state.expiresAt,
                 if intent.Some? then Some(intent.value.StablePayload().(effectiveFrom := 0)) else None)
  }

  function NextIntentVersion(latest: Option<StateRow>): int {
    if latest.None? then 1 else latest.value.version + 1
  }

  function AutomaticRow(now: int, id: int): OverrideRow {
    OverrideRow(id, None, Automatic, HvacOff, None, None, now, None, None, false)
  }

  predicate EndsOverride(latest: Option<OverrideRow>, state: Evaluation) {
    latest.Some? && !latest.value.controlMode.Automatic? && !state.phase.OverridePhase?
  }

  datatype RoomOutcome = RoomRaised | RoomDone(record: RoomRecord, messages: seq<Message>)

  /** What the recalculation derives from a state: the row's version and the payload of its intent message. */
  function VersionedIntent(derivation: Derivation, latest: Option<StateRow>): Option<Intent> {
    if derivation.Derived? then Some(derivation.intent.(version := NextIntentVersion(latest))) else None
  }

  function PersistedVersion(intent: Option<Intent>, latest: Option<StateRow>): int {
    if intent.Some? then intent.value.version
    else if latest.Some? then latest.value.version
    else 0
  }

  function RowFrom(state: Evaluation, intent: Option<Intent>, latest: Option<StateRow>, now: int, id: int): StateRow {
    StateRow(id, state.phase, if state.booking.Some? then Some(state.booking.value.id) else None,
             PersistedVersion(intent, latest), RoomStateHash(state, intent), now)
  }

  function StateMessages(state: Evaluation, intent: Option<Intent>, correlationId: int): seq<Message> {
    [PmsState(state, correlationId)] + if intent.Some? then [IntentState(intent.value)] else []
  }

  function EvaluationOf(record: RoomRecord, room: Room, bookings: seq<Booking>, policy: Policy, now: int): Evaluation {
    EvaluateRoom(room, bookings, now, policy, ActiveOverride(LatestOverride(record), now))
  }

  function DerivationOf(record: RoomRecord, room: Room, bookings: seq<Booking>, policy: Policy, now: int, correlationId: int): Derivation {
    DeriveRoomIntent(EvaluationOf(record, room, bookings, policy, now), policy,
                     ActiveOverride(LatestOverride(record), now), correlationId)
  }

  function RecalculateRoom(record: RoomRecord, room: Room, bookings: seq<Booking>, policy: Policy, now: int,
                           ids: RowIds, correlationId: int): RoomOutcome {
    var latestOverride, latestState := LatestOverride(record), LatestState(record);
    var state := EvaluationOf(record, room, bookings, policy, now);
    var derivation := DerivationOf(record, room, bookings, policy, now, correlationId);
    if derivation.Raised? then RoomRaised
    else
      var ended := EndsOverride(latestOverride, state);
      var overrides := record.overrides + if ended then [AutomaticRow(now, ids.override_(room.key))] else [];
      var control := if ended then [ControlState(DefaultControlPayload(room.key))] else [];
      var intent := VersionedIntent(derivation, latestState);
      var hash := RoomStateHash(state, intent);
      if latestState.Some? && latestState.value.hash == hash then
        RoomDone(record.(overrides := overrides), control)
      else
        RoomDone(RoomRecord(overrides, record.states + [RowFrom(state, intent, latestState, now, ids.state(room.key))]),
                 StateMessages(state, intent, correlationId) + control)
  }

  // Transactions

  datatype Recalculation = RolledBack | Recalculated(rooms: map<string, RoomRecord>, outbox: seq<Message>)

  function RecalculateRooms(rooms: seq<Room>, affected: set<string>, bookings: seq<Booking>, policy: Policy,
                            records: map<string, RoomRecord>, outbox: seq<Message>, now: int, ids: RowIds,
                            correlationId: int): Recalculation {
    if rooms == [] then Recalculated(records, outbox)
    else if rooms[0].key !in affected then
      RecalculateRooms(rooms[1..], affected, bookings, policy, records, outbox, now, ids, correlationId)
    else
      var done := RecalculateRoom(RecordOf(records, rooms[0].key), rooms[0], bookings, policy, now, ids, correlationId);
      if done.RoomRaised? then RolledBack
      else RecalculateRooms(rooms[1..], affected, bookings, policy, records[rooms[0].key := done.record],
                            outbox + done.messages, now, ids, correlationId)
  }

  /** The tables after a transaction that evaluates rooms; unchanged when a derivation raised. */
  function EvaluateRooms(t: Tables, rooms: seq<Room>, affected: set<string>, policy: Policy, now: int, ids: RowIds,
                         correlationId: int): Tables {
    var r := RecalculateRooms(rooms, affected, Loaded(t.bookings), policy, t.rooms, t.outbox, now, ids, correlationId);
    if r.RolledBack? then t else t.(rooms := r.rooms, outbox := r.outbox)
  }

  function AllKeys(rooms: seq<Room>): set<string> {
    set r | r in rooms :: r.key
  }

  function LoadCursorState(t: Tables): SyncCursorState {
    if t.cursor.None? then NeverSynced else t.cursor.value
  }

  /** The tables after a synchronization result was applied; unchanged when it failed or a derivation raised. */
  function ApplySyncResult(t: Tables, rooms: seq<Room>, policy: Policy, result: SyncRunResult, ids: RowIds,
                           correlationId: int): Tables {
    if !result.success then t
    else
      var st := SyncBookings(rooms, SyncState(t.bookings, {}), result.bookings, result.finishedAt);
      var r := RecalculateRooms(rooms, st.affected, Loaded(st.bookings), policy, t.rooms, t.outbox, result.finishedAt,
                                ids, correlationId);
      if r.RolledBack? then t
      else Tables(st.bookings, r.rooms, r.outbox, Some(result.nextCursor))
  }

  // The service

  class ClockDbSyncService {
    const db: Database
    const rooms: seq<Room>
    const policy: Policy

    constructor (db: Database, rooms: seq<Room>, policy: Policy)
      ensures this.db == db && this.rooms == rooms && this.policy == policy
    {
      this.db, this.rooms, this.policy := db, rooms, policy;
    }

    method UpsertBooking(n: Booking) returns (k: nat, changed: bool)
      modifies db`bookings
      ensures changed == Changed(old(db.bookings), n)
      ensures k == PlaceOf(old(db.bookings), n.id) < |db.bookings|
      ensures db.bookings == PutRecord(old(db.bookings), BookingRecord(RowOf(n), RecordBefore(old(db.bookings), n).assignments))
    {
      k := PlaceOf(db.bookings, n.id);
      var isNew := k == |db.bookings|;
      if isNew {
        db.bookings := db.bookings + [BookingRecord(RowOf(n), [])];
      }
      changed := isNew || db.bookings[k].row.payloadHash != n.payloadHash;
      db.bookings := db.bookings[k := db.bookings[k].(row := RowOf(n))];
    }

    method SyncAssignmentOf(k: nat, n: Booking, now: int) returns (affected: set<string>, currentRoom: Option<string>)
      requires k < |db.bookings|
      modifies db`bookings
      ensures var change := SyncAssignment(old(db.bookings[k].assignments), n, ResolveRoom(rooms, n), now);
              && db.bookings == old(db.bookings)[k := old(db.bookings[k]).(assignments := change.rows)]
              && affected == change.affected && currentRoom == change.currentRoom
    {
      var rows := db.bookings[k].assignments;
      var newRoom := ResolveRoom(rooms, n);
      var current := CurrentPlace(rows);
      affected := {};
      if !n.HasPhysicalRoom() {
        if current == |rows| {
          return {}, None;
        }
        affected := RoomSet(rows[current].room);
        rows := rows[current := Closed(rows[current], now)];
        db.bookings := db.bookings[k := db.bookings[k].(assignments := rows)];
        return affected, None;
      }
      if current < |rows| && SameIdentity(rows[current], n) {
        if rows[current].room != newRoom {
          affected := RoomSet(rows[current].room) + RoomSet(newRoom);
          rows := rows[current := rows[current].(room := newRoom)];
          db.bookings := db.bookings[k := db.bookings[k].(assignments := rows)];
        }
        return affected, rows[current].room;
      }
      if current < |rows| {
        affected := RoomSet(rows[current].room);
        rows := rows[current := Closed(rows[current], now)];
      }
      rows := rows + [AssignmentFor(n, newRoom, now)];
      db.bookings := db.bookings[k := db.bookings[k].(assignments := rows)];
      return affected + RoomSet(newRoom), newRoom;
    }

    method EndInactiveOverrideIfNeeded(room: Room, latest: Option<OverrideRow>, state: Evaluation, now: int, id: int)
      returns (control: Option<ControlPayload>)
      modifies db`rooms
      ensures control == if EndsOverride(latest, state) then Some(DefaultControlPayload(room.key)) else None
      ensures var record := RecordOf(old(db.rooms), room.key);
              db.rooms == if control.None? then old(db.rooms)
                          else old(db.rooms)[room.key := record.(overrides := record.overrides + [AutomaticRow(now, id)])]
    {
      if latest.None? || latest.value.controlMode.Automatic? {
        return None;
      }
      if state.phase.OverridePhase? {
        return None;
      }
      var record := RecordOf(db.rooms, room.key);
      db.rooms := db.rooms[room.key := record.(overrides := record.overrides + [AutomaticRow(now, id)])];
      return Some(DefaultControlPayload(room.key));
    }

    method PersistState(key: string, row: StateRow, state: Evaluation, intent: Option<Intent>, correlationId: int)
      modifies db`rooms, db`outbox
      ensures db.rooms == old(db.rooms)[key := RecordOf(old(db.rooms), key).(states := RecordOf(old(db.rooms), key).states + [row])]
      ensures db.outbox == old(db.outbox) + StateMessages(state, intent, correlationId)
    {
      var record := RecordOf(db.rooms, key);
      db.rooms := db.rooms[key := record.(states := record.states + [row])];
      db.outbox := db.outbox + [PmsState(state, correlationId)];
      if intent.Some? {
        db.outbox := db.outbox + [IntentState(intent.value)];
      }
    }

    method RecalculateOne(room: Room, bookings: seq<Booking>, now: int, ids: RowIds, correlationId: int) returns (raised: bool)
      modifies db`rooms, db`outbox
      ensures var done := RecalculateRoom(RecordOf(old(db.rooms), room.key), room, bookings, policy, now, ids, correlationId);
              && raised == done.RoomRaised?
              && (!raised ==> db.rooms == old(db.rooms)[room.key := done.record] && db.outbox == old(db.outbox) + done.messages)
    {
      hide EvaluateRoom, DeriveRoomIntent, Latest, RowFrom, StateMessages, RoomStateHash, VersionedIntent;
      var record := RecordOf(db.rooms, room.key);
      var latestOverride, latestState := LatestOverride(record), LatestState(record);
      var override := ActiveOverride(latestOverride, now);
      var state := EvaluateRoom(room, bookings, now, policy, override);
      var derivation := DeriveRoomIntent(state, policy, override, correlationId);
      if derivation.Raised? {
        return true;
      }
      var intent := VersionedIntent(derivation, latestState);
      var hash := RoomStateHash(state, intent);
      db.rooms := db.rooms[room.key := record];
      var control := EndInactiveOverrideIfNeeded(room, latestOverride, state, now, ids.override_(room.key));
      assert record.overrides + [] == record.overrides;
      if latestState.Some? && latestState.value.hash == hash {
        if control.Some? {
          db.outbox := db.outbox + [ControlState(control.value)];
        }
        return false;
      }
      PersistState(room.key, RowFrom(state, intent, latestState, now, ids.state(room.key)), state, intent, correlationId);
      if control.Some? {
        db.outbox := db.outbox + [ControlState(control.value)];
      }
      return false;
    }

    method RecalculateAffected(affected: set<string>, now: int, ids: RowIds, correlationId: int) returns (raised: bool)
      modifies db`rooms, db`outbox
      ensures var r := RecalculateRooms(rooms, affected, Loaded(db.bookings), policy, old(db.rooms), old(db.outbox), now, ids, correlationId);
              && raised == r.RolledBack?
              && (!raised ==> db.rooms == r.rooms && db.outbox == r.outbox)
    {
      var bookings := Loaded(db.bookings);
      for i := 0 to |rooms|
        invariant RecalculateRooms(rooms, affected, bookings, policy, old(db.rooms), old(db.outbox), now, ids, correlationId)
               == RecalculateRooms(rooms[i..], affected, bookings, policy, db.rooms, db.outbox, now, ids, correlationId)
      {
        hide RecalculateRoom;
        assert rooms[i..][1..] == rooms[i + 1..];
        if rooms[i].key in affected {
          raised := RecalculateOne(rooms[i], bookings, now, ids, correlationId);
          if raised {
            return true;
          }
        }
      }
      return false;
    }

    method EvaluateRoomKeys(keys: set<string>, now: int, ids: RowIds, correlationId: int)
      modifies db
      ensures db.View() == EvaluateRooms(old(db.View()), rooms, keys, policy, now, ids, correlationId)
    {
      var before := db.View();
      var raised := RecalculateAffected(keys, now, ids, correlationId);
      if raised {
        db.Rollback(before);
      }
    }

    method EvaluateAllRooms(now: int, ids: RowIds, correlationId: int)
      modifies db
      ensures db.View() == EvaluateRooms(old(db.View()), rooms, AllKeys(rooms), policy, now, ids, correlationId)
    {
      EvaluateRoomKeys(AllKeys(rooms), now, ids, correlationId);
    }

    method SyncAll(ns: seq<Booking>, now: int) returns (affected: set<string>)
      modifies db`bookings
      ensures SyncState(db.bookings, affected) == SyncBookings(rooms, SyncState(old(db.bookings), {}), ns, now)
    {
      affected := {};
      for i := 0 to |ns|
        invariant SyncState(db.bookings, affected) == SyncBookings(rooms, SyncState(old(db.bookings), {}), ns[..i], now)
      {
        hide SyncAssignment;
        assert ns[..i + 1][..i] == ns[..i];
        ghost var before := db.bookings;
        var k, changed := UpsertBooking(ns[i]);
        var touched, currentRoom := SyncAssignmentOf(k, ns[i], now);
        PutTwice(before, BookingRecord(RowOf(ns[i]), RecordBefore(before, ns[i]).assignments), db.bookings[k]);
        affected := affected + touched;
        if changed && currentRoom.Some? {
          affected := affected + {currentRoom.value};
        }
      }
      assert ns[..|ns|] == ns;
    }

    method ApplyResult(result: SyncRunResult, ids: RowIds, correlationId: int)
      modifies db
      ensures db.View() == ApplySyncResult(old(db.View()), rooms, policy, result, ids, correlationId)
    {
      if !result.success {
        return;
      }
      var before := db.View();
      var affected := SyncAll(result.bookings, result.finishedAt);
      var raised := RecalculateAffected(affected, result.finishedAt, ids, correlationId);
      if raised {
        db.Rollback(before);
        return;
      }
      AdvanceCursor(result);
    }

    method AdvanceCursor(result: SyncRunResult)
      modifies db`cursor
      ensures db.cursor == Some(result.nextCursor)
    {
      db.cursor := Some(result.nextCursor);
    }
  }

  lemma PutTwice(bookings: seq<BookingRecord>, first: BookingRecord, second: BookingRecord)
    requires first.row.id == second.row.id
    ensures var k := PlaceOf(bookings, first.row.id);
            k < |PutRecord(bookings, first)| && PutRecord(bookings, first)[k := second] == PutRecord(bookings, second)
  {
  }
}
