/**
 The tables behind the services (app/persistence/models.py), and how their newest rows are found.

 Rows are grouped by what they belong to: a booking's assignment rows with the booking, a room's
 override and state rows with the room. Rows stand in the order they were added in.
 */
module Store {
  import opened Domain
  import opened Sequences

  datatype BookingRow = BookingRow(id: string, status: BookingStatus, arrival: int, departure: int, payloadHash: string)

  datatype AssignmentRow = AssignmentRow(
    room: Option<string>,
    clockRoomId: Option<string>,
    roomNumber: Option<string>,
    assignedAt: int,
    removedAt: Option<int>,
    current: bool)

  datatype BookingRecord = BookingRecord(row: BookingRow, assignments: seq<AssignmentRow>)

  datatype OverrideRow = OverrideRow(
    id: int,
    bookingId: Option<string>,
    controlMode: ControlMode,
    hvacMode: HvacMode,
    target: Option<real>,
    waterHeater: Option<bool>,
    startsAt: int,
    expiresAt: Option<int>,
    checkoutAt: Option<int>,
    untilCheckout: bool)

  /** What the semantic hash of a room state is computed from; equal hashes mean equal fields. */
  datatype SemanticHash = SemanticHash(
    roomKey: Option<string>,
    phase: AutomationPhase,
    booking: Option<Booking>,
    needsAttention: bool,
    attention: AttentionReason,
    reason: Reason,
    expiresAt: Option<int>,
    intent: Option<Intent>)

  datatype StateRow = StateRow(
    id: int,
    phase: AutomationPhase,
    bookingId: Option<string>,
    version: int,
    hash: SemanticHash,
    createdAt: int)

  datatype RoomRecord = RoomRecord(overrides: seq<OverrideRow>, states: seq<StateRow>)

  const EmptyRecord := RoomRecord([], [])

  function RecordOf(rooms: map<string, RoomRecord>, key: string): RoomRecord {
    if key in rooms then rooms[key] else EmptyRecord
  }

  // Messages for the outbox

  datatype Duration = Minutes60 | Minutes240 | Minutes720 | UntilCheckout

  datatype ControlPayload = ControlPayload(
    roomKey: string,
    controlMode: ControlMode,
    hvacMode: HvacMode,
    target: Option<real>,
    duration: Duration,
    waterHeater: bool,
    active: bool,
    untilCheckout: bool,
    expiresAt: Option<int>)

  datatype Message =
    | PmsState(state: Evaluation, correlationId: int)
    | IntentState(intent: Intent)
    | ControlState(control: ControlPayload)

  // The newest row, by time and then by id

  /** The head of a descending order: of two rows of which neither is newer, the one added last. */
  function Latest<T>(newer: (T, T) -> bool, rows: seq<T>): (r: Option<T>)
    ensures r.None? <==> rows == []
    ensures r.Some? ==> r.value in rows
  {
    if rows == [] then None
    else
      var earlier, last := Latest(newer, rows[..|rows| - 1]), rows[|rows| - 1];
      if earlier.Some? && newer(earlier.value, last) then earlier else Some(last)
  }

  function NewerOverride(): (OverrideRow, OverrideRow) -> bool {
    (a: OverrideRow, b: OverrideRow) => a.startsAt > b.startsAt || (a.startsAt == b.startsAt && a.id > b.id)
  }

  function NewerState(): (StateRow, StateRow) -> bool {
    (a: StateRow, b: StateRow) => a.createdAt > b.createdAt || (a.createdAt == b.createdAt && a.id > b.id)
  }

  function LatestOverride(record: RoomRecord): Option<OverrideRow> {
    Latest(NewerOverride(), record.overrides)
  }

  function LatestState(record: RoomRecord): Option<StateRow> {
    Latest(NewerState(), record.states)
  }

  /** A row added to a table becomes the newest exactly when the newest before it is not newer. */
  lemma LatestAppend<T>(newer: (T, T) -> bool, rows: seq<T>, row: T)
    ensures Latest(newer, rows + [row]) ==
            if rows != [] && newer(Latest(newer, rows).value, row) then Latest(newer, rows) else Some(row)
  {
    assert (rows + [row])[..|rows|] == rows;
  }

  /** What an order by time and then by id is, also among rows that share both. */
  ghost predicate WeakOrder<T(!new)>(newer: (T, T) -> bool) {
    && (forall x, y :: newer(x, y) ==> !newer(y, x))
    && (forall x, y, z :: newer(x, y) ==> newer(x, z) || newer(z, y))
  }

  /** The newest row is a maximum of the table: no row is newer. */
  lemma {:induction false} NothingIsNewer<T(!new)>(newer: (T, T) -> bool, rows: seq<T>, row: T)
    requires WeakOrder(newer) && row in rows
    ensures !newer(row, Latest(newer, rows).value)
  {
    var earlier, last := rows[..|rows| - 1], rows[|rows| - 1];
    if row in earlier {
      NothingIsNewer(newer, earlier, row);
    }
  }

  /** The newest override starts last; of those that start last it has the greatest id. */
  lemma LatestOverrideIsNewest(record: RoomRecord, row: OverrideRow)
    requires row in record.overrides
    ensures LatestOverride(record).Some? && LatestOverride(record).value in record.overrides
    ensures var latest := LatestOverride(record).value;
            row.startsAt < latest.startsAt || (row.startsAt == latest.startsAt && row.id <= latest.id)
  {
    NothingIsNewer(NewerOverride(), record.overrides, row);
  }

  /** The newest state was created last; of those created last it has the greatest id. */
  lemma LatestStateIsNewest(record: RoomRecord, row: StateRow)
    requires row in record.states
    ensures LatestState(record).Some? && LatestState(record).value in record.states
    ensures var latest := LatestState(record).value;
            row.createdAt < latest.createdAt || (row.createdAt == latest.createdAt && row.id <= latest.id)
  {
    NothingIsNewer(NewerState(), record.states, row);
  }

  /** Where the next synchronization starts: the last success, and a page to continue with. */
  datatype SyncCursorState = SyncCursorState(lastSuccessAt: Option<int>, cursorValue: Option<string>)

  /** The state of the database that the services read and write, as one value. */
  datatype Tables = Tables(
    bookings: seq<BookingRecord>,
    rooms: map<string, RoomRecord>,
    outbox: seq<Message>,
    cursor: Option<SyncCursorState>)

  const EmptyTables := Tables([], map[], [], None)

  class Database {
    var bookings: seq<BookingRecord>
    var rooms: map<string, RoomRecord>
    var outbox: seq<Message>
    var cursor: Option<SyncCursorState>

    function View(): Tables
      reads this
    {
      Tables(bookings, rooms, outbox, cursor)
    }

    constructor ()
      ensures View() == EmptyTables
    {
      bookings, rooms, outbox, cursor := [], map[], [], None;
    }

    /** The end of a transaction that an exception left. */
    method Rollback(before: Tables)
      modifies this
      ensures View() == before
    {
      bookings, rooms, outbox, cursor := before.bookings, before.rooms, before.outbox, before.cursor;
    }
  }
}
