/**
 What synchronizations keep: each booking's assignment history, and the view of every room that is
 not recalculated.
 */
module Assignments {
  import opened Domain
  import opened Sequences
  import opened StateMachine
  import opened Store
  import opened Control
  import opened DbSync

  // The assignment history of one booking

  /** The booking's assignments so far follow each other in time; only the last one can be current. */
  ghost predicate HistoryOk(rows: seq<AssignmentRow>, now: int) {
    && (forall i :: 0 <= i < |rows| ==>
          && (rows[i].current <==> rows[i].removedAt.None?)
          && rows[i].assignedAt <= now
          && (rows[i].removedAt.Some? ==> rows[i].assignedAt <= rows[i].removedAt.value <= now))
    && (forall i, j :: 0 <= i < j < |rows| ==>
          rows[i].removedAt.Some? && rows[i].removedAt.value <= rows[j].assignedAt)
  }

  /** Rows are only added; closed rows stay as they are, and no row changes what it assigned and when. */
  ghost predicate Extends(before: seq<AssignmentRow>, after: seq<AssignmentRow>) {
    && |before| <= |after|
    && forall i :: 0 <= i < |before| ==>
         && (before[i].removedAt.Some? ==> after[i] == before[i])
         && after[i].clockRoomId == before[i].clockRoomId
         && after[i].roomNumber == before[i].roomNumber
         && after[i].assignedAt == before[i].assignedAt
  }

  /** The booking without the identity of a room it is not assigned to. */
  function Stripped(n: Booking): Booking {
    if n.HasPhysicalRoom() then n else n.(roomId := None, roomNumber := None)
  }

  lemma OnlyCurrent(rows: seq<AssignmentRow>, k: nat)
    requires k < |rows| && rows[k].current && forall i :: 0 <= i < |rows| && i != k ==> !rows[i].current
    ensures CurrentPlace(rows) == k
  {
  }

  lemma NoneCurrent(rows: seq<AssignmentRow>)
    requires forall i :: 0 <= i < |rows| ==> !rows[i].current
    ensures CurrentPlace(rows) == |rows|
  {
  }

  lemma CurrentIsLast(rows: seq<AssignmentRow>, k: nat, now: int)
    requires HistoryOk(rows, now) && k < |rows| && rows[k].current
    ensures k == |rows| - 1
  {
    var last := rows[|rows| - 1];
  }

  ghost predicate AllClosed(rows: seq<AssignmentRow>) {
    forall i :: 0 <= i < |rows| ==> !rows[i].current
  }

  lemma ClosingContinues(rows: seq<AssignmentRow>, k: nat, then_: int, now: int)
    requires HistoryOk(rows, then_) && then_ <= now && k < |rows| && rows[k].current
    ensures var after := rows[k := Closed(rows[k], now)];
            HistoryOk(after, now) && Extends(rows, after) && AllClosed(after)
  {
    CurrentIsLast(rows, k, then_);
  }

  lemma AssigningContinues(rows: seq<AssignmentRow>, row: AssignmentRow, now: int)
    requires HistoryOk(rows, now) && AllClosed(rows)
    requires row.assignedAt == now && row.current && row.removedAt.None?
    ensures HistoryOk(rows + [row], now) && Extends(rows, rows + [row])
  {
    assert forall i :: 0 <= i < |rows| ==> (rows + [row])[i] == rows[i];
  }

  lemma MovingContinues(rows: seq<AssignmentRow>, k: nat, room: Option<string>, now: int)
    requires HistoryOk(rows, now) && k < |rows| && rows[k].current
    ensures var after := rows[k := rows[k].(room := room)];
            HistoryOk(after, now) && Extends(rows, after)
  {
    CurrentIsLast(rows, k, now);
  }

  lemma ExtendsTransitive(a: seq<AssignmentRow>, b: seq<AssignmentRow>, c: seq<AssignmentRow>)
    requires Extends(a, b) && Extends(b, c)
    ensures Extends(a, c)
  {
  }

  lemma HistoryContinues(rows: seq<AssignmentRow>, n: Booking, newRoom: Option<string>, then_: int, now: int)
    requires HistoryOk(rows, then_) && then_ <= now
    ensures HistoryOk(SyncAssignment(rows, n, newRoom, now).rows, now)
    ensures Extends(rows, SyncAssignment(rows, n, newRoom, now).rows)
  {
    HistoryLater(rows, then_, now);
    var k := CurrentPlace(rows);
    var row := AssignmentFor(n, newRoom, now);
    if k == |rows| {
      AssigningContinues(rows, row, now);
    } else {
      hide HistoryOk, Extends;
      var closed := rows[k := Closed(rows[k], now)];
      ClosingContinues(rows, k, now, now);
      AssigningContinues(closed, row, now);
      ExtendsTransitive(rows, closed, closed + [row]);
      MovingContinues(rows, k, newRoom, now);
      ExtendsSelf(rows);
    }
  }

  lemma ExtendsSelf(rows: seq<AssignmentRow>)
    ensures Extends(rows, rows)
  {
  }

  /** After a booking is synchronized, its current assignment is the one it came with, in the room it resolves to. */
  lemma SyncedAssignment(rows: seq<AssignmentRow>, n: Booking, newRoom: Option<string>, now: int)
    requires HistoryOk(rows, now)
    ensures var change := SyncAssignment(rows, n, newRoom, now);
            && (CurrentAssignment(change.rows).Some? <==> n.HasPhysicalRoom())
            && (n.HasPhysicalRoom() ==>
                  var a := CurrentAssignment(change.rows).value;
                  SameIdentity(a, n) && a.room == newRoom == change.currentRoom)
  {
    var change := SyncAssignment(rows, n, newRoom, now);
    var k := CurrentPlace(rows);
    assert forall i :: 0 <= i < |rows| && i != k ==> !rows[i].current;
    hide HistoryOk;
    if !n.HasPhysicalRoom() {
      NoneCurrent(change.rows);
    } else if k == |rows| || !SameIdentity(rows[k], n) {
      OnlyCurrent(change.rows, |change.rows| - 1);
    } else {
      OnlyCurrent(change.rows, k);
    }
  }

  // The store over a run of synchronizations

  ghost predicate StoreOk(bookings: seq<BookingRecord>, now: int) {
    && (forall i, j :: 0 <= i < j < |bookings| ==> bookings[i].row.id != bookings[j].row.id)
    && (forall i :: 0 <= i < |bookings| ==> HistoryOk(bookings[i].assignments, now))
  }

  lemma HistoryLasts(bookings: seq<BookingRecord>, now: int, later: int)
    requires StoreOk(bookings, now) && now <= later
    ensures StoreOk(bookings, later)
  {
    forall i | 0 <= i < |bookings|
      ensures HistoryOk(bookings[i].assignments, later)
    {
      HistoryLater(bookings[i].assignments, now, later);
    }
  }

  lemma HistoryLater(rows: seq<AssignmentRow>, now: int, later: int)
    requires rows == [] || (HistoryOk(rows, now) && now <= later)
    ensures HistoryOk(rows, later)
  {
  }

  /** The booking's record, and only it, is replaced by one that shows the booking as it came. */
  ghost predicate PutFresh(rooms: seq<Room>, before: SyncState, after: SyncState, n: Booking) {
    var k := PlaceOf(before.bookings, n.id);
    && k < |after.bookings|
    && after.bookings[k].row == RowOf(n)
    && Extends(RecordBefore(before.bookings, n).assignments, after.bookings[k].assignments)
    && Normalized(after.bookings[k]) == Stripped(n)
    && (n.HasPhysicalRoom() ==> CurrentAssignment(after.bookings[k].assignments).value.room == ResolveRoom(rooms, n))
    && after.bookings == (if k < |before.bookings| then before.bookings[k := after.bookings[k]]
                          else before.bookings + [after.bookings[k]])
  }

  lemma SyncPutsFresh(rooms: seq<Room>, st: SyncState, n: Booking, then_: int, now: int)
    requires StoreOk(st.bookings, then_) && then_ <= now
    ensures StoreOk(SyncBooking(rooms, st, n, now).bookings, now)
    ensures PutFresh(rooms, st, SyncBooking(rooms, st, n, now), n)
  {
    hide SyncAssignment, HistoryOk, Extends, ResolveRoom;
    var record := RecordBefore(st.bookings, n);
    HistoryLater([], then_, now);
    HistoryLasts(st.bookings, then_, now);
    HistoryContinues(record.assignments, n, ResolveRoom(rooms, n), now, now);
    SyncedAssignment(record.assignments, n, ResolveRoom(rooms, n), now);
  }

  /** A booking synchronized at an instant, under the registry of that time. */
  datatype SyncEvent = SyncEvent(rooms: seq<Room>, booking: Booking, at: int)

  function Synced(events: seq<SyncEvent>): seq<BookingRecord> {
    if events == [] then []
    else
      var e := events[|events| - 1];
      SyncBooking(e.rooms, SyncState(Synced(events[..|events| - 1]), {}), e.booking, e.at).bookings
  }

  function LastSynced(events: seq<SyncEvent>, id: string): Option<Booking> {
    if events == [] then None
    else if events[|events| - 1].booking.id == id then Some(events[|events| - 1].booking)
    else LastSynced(events[..|events| - 1], id)
  }

  ghost predicate InOrder(events: seq<SyncEvent>, now: int) {
    && (forall i, j :: 0 <= i < j < |events| ==> events[i].at <= events[j].at)
    && (forall i :: 0 <= i < |events| ==> events[i].at <= now)
  }

  /** Every record shows the booking as it was last synchronized, with an orderly history; and none is missing. */
  ghost predicate Remembers(bookings: seq<BookingRecord>, events: seq<SyncEvent>, now: int) {
    && StoreOk(bookings, now)
    && (forall i :: 0 <= i < |bookings| ==> ShowsLast(bookings[i], events))
    && (forall id :: LastSynced(events, id).Some? ==> PlaceOf(bookings, id) < |bookings|)
  }

  ghost predicate ShowsLast(record: BookingRecord, events: seq<SyncEvent>) {
    var last := LastSynced(events, record.row.id);
    last.Some? && Normalized(record) == Stripped(last.value)
  }

  /**
   Assignment history: over any run of synchronizations each booking has at most one current row, which
   is the room identity it was last synchronized with; its intervals do not overlap.
   */
  lemma {:induction false} AssignmentHistory(events: seq<SyncEvent>, now: int)
    requires InOrder(events, now)
    ensures Remembers(Synced(events), events, now)
  {
    hide Synced, SyncBooking, Remembers;
    if events == [] {
      NothingToRemember(now);
    } else {
      var earlier, e := events[..|events| - 1], events[|events| - 1];
      AssignmentHistory(earlier, e.at);
      RemembersOne(Synced(earlier), earlier, e, now);
      SyncedAppend(earlier, e);
      assert earlier + [e] == events;
    }
  }

  lemma NothingToRemember(now: int)
    ensures Remembers(Synced([]), [], now)
  {
  }

  lemma RemembersOne(before: seq<BookingRecord>, earlier: seq<SyncEvent>, e: SyncEvent, now: int)
    requires Remembers(before, earlier, e.at) && e.at <= now
    ensures Remembers(SyncBooking(e.rooms, SyncState(before, {}), e.booking, e.at).bookings, earlier + [e], now)
  {
    hide SyncBooking, Normalized, HistoryOk, Extends;
    var events := earlier + [e];
    assert events[..|events| - 1] == earlier;
    SyncPutsFresh(e.rooms, SyncState(before, {}), e.booking, e.at, e.at);
    var after := SyncBooking(e.rooms, SyncState(before, {}), e.booking, e.at).bookings;
    HistoryLasts(after, e.at, now);
    var k := PlaceOf(before, e.booking.id);
    forall i | 0 <= i < |after|
      ensures ShowsLast(after[i], events)
    {
      if i != k {
        assert after[i] == before[i];
        assert after[i].row.id != after[k].row.id;
      }
    }
    forall id | LastSynced(events, id).Some?
      ensures PlaceOf(after, id) < |after|
    {
      if id == e.booking.id {
        assert after[k].row.id == id;
      } else {
        var j := PlaceOf(before, id);
        assert after[j] == before[j];
        assert after[j].row.id == id;
      }
    }
  }

  function EventsOf(rooms: seq<Room>, ns: seq<Booking>, at: int): (r: seq<SyncEvent>)
    ensures |r| == |ns|
  {
    if ns == [] then []
    else EventsOf(rooms, ns[..|ns| - 1], at) + [SyncEvent(rooms, ns[|ns| - 1], at)]
  }

  lemma AffectedIsOutput(rooms: seq<Room>, st: SyncState, other: set<string>, n: Booking, now: int)
    ensures SyncBooking(rooms, st, n, now).bookings == SyncBooking(rooms, st.(affected := other), n, now).bookings
  {
  }

  lemma SyncedAppend(events: seq<SyncEvent>, e: SyncEvent)
    ensures Synced(events + [e]) == SyncBooking(e.rooms, SyncState(Synced(events), {}), e.booking, e.at).bookings
  {
    hide SyncBooking;
    assert (events + [e])[..|events|] == events;
  }

  /** The bookings a synchronization stores are those of its bookings one after the other. */
  lemma {:induction false} TransactionIsEvents(events: seq<SyncEvent>, rooms: seq<Room>, affected: set<string>, ns: seq<Booking>, at: int)
    ensures SyncBookings(rooms, SyncState(Synced(events), affected), ns, at).bookings == Synced(events + EventsOf(rooms, ns, at))
  {
    hide Synced, SyncBooking;
    if ns == [] {
      assert events + [] == events;
    } else {
      var earlier, n := ns[..|ns| - 1], ns[|ns| - 1];
      TransactionIsEvents(events, rooms, affected, earlier, at);
      AffectedIsOutput(rooms, SyncBookings(rooms, SyncState(Synced(events), affected), earlier, at), {}, n, at);
      var before := events + EventsOf(rooms, earlier, at);
      SyncedAppend(before, SyncEvent(rooms, n, at));
      assert events + EventsOf(rooms, ns, at) == before + [SyncEvent(rooms, n, at)];
    }
  }

  lemma StoreStaysOk(events: seq<SyncEvent>, now: int)
    requires InOrder(events, now)
    ensures StoreOk(Synced(events), now)
  {
    AssignmentHistory(events, now);
  }

  /** Over any later run the booking keeps its place, and its closed rows stay as they are. */
  lemma {:induction false} ClosedRowsStay(events: seq<SyncEvent>, more: seq<SyncEvent>, now: int, k: nat)
    requires InOrder(events + more, now) && k < |Synced(events)|
    ensures k < |Synced(events + more)|
    ensures Synced(events + more)[k].row.id == Synced(events)[k].row.id
    ensures Extends(Synced(events)[k].assignments, Synced(events + more)[k].assignments)
    decreases |more|
  {
    if more == [] {
      assert events + more == events;
      ExtendsSelf(Synced(events)[k].assignments);
    } else {
      hide StoreOk, Normalized, SyncBooking, Extends;
      var e, shorter := more[|more| - 1], more[..|more| - 1];
      var earlier := events + shorter;
      assert (events + more)[..|events + more| - 1] == earlier;
      assert (events + more)[|events + more| - 1] == e;
      assert forall i :: 0 <= i < |earlier| ==> earlier[i] == (events + more)[i];
      ClosedRowsStay(events, shorter, now, k);
      StoreStaysOk(earlier, e.at);
      SyncPutsFresh(e.rooms, SyncState(Synced(earlier), {}), e.booking, e.at, e.at);
      var before, after := Synced(earlier), Synced(events + more);
      if k == PlaceOf(before, e.booking.id) {
        ExtendsTransitive(Synced(events)[k].assignments, before[k].assignments, after[k].assignments);
      }
    }
  }

  // Rooms that are not recalculated

  /** Whatever an evaluation of a room looks at is stored as assigned to that room. */
  ghost predicate Tracked(rooms: seq<Room>, record: BookingRecord) {
    forall room :: room in rooms && Concerns(room)(Normalized(record)) ==>
      CurrentAssignment(record.assignments).Some?
      && CurrentAssignment(record.assignments).value.room == Some(room.key)
  }

  ghost predicate AllTracked(rooms: seq<Room>, bookings: seq<BookingRecord>) {
    forall i :: 0 <= i < |bookings| ==> Tracked(rooms, bookings[i])
  }

  /** Room matching agrees with room resolution: a room that looks at the booking is the one it resolves to. */
  ghost predicate MatchingAgrees(rooms: seq<Room>, n: Booking) {
    forall room :: room in rooms && Concerns(room)(Stripped(n)) ==> n.HasPhysicalRoom() && ResolveRoom(rooms, n) == Some(room.key)
  }

  /** The payload hash is faithful: with an equal hash come equal fields. */
  ghost predicate HashFaithful(bookings: seq<BookingRecord>, n: Booking) {
    Changed(bookings, n) || RecordBefore(bookings, n).row == RowOf(n)
  }

  lemma UnaffectedRecord(rooms: seq<Room>, st: SyncState, n: Booking, now: int, room: Room)
    requires room in rooms && StoreOk(st.bookings, now)
    requires AllTracked(rooms, st.bookings) && MatchingAgrees(rooms, n) && HashFaithful(st.bookings, n)
    requires room.key !in SyncBooking(rooms, st, n, now).affected
    ensures var after := SyncBooking(rooms, st, n, now).bookings[PlaceOf(st.bookings, n.id)];
            var before := RecordBefore(st.bookings, n);
            || after == before
            || (!Concerns(room)(Normalized(after)) && !(before in st.bookings && Concerns(room)(Normalized(before))))
  {
    hide Concerns, ResolveRoom, HistoryOk;
    SyncPutsFresh(rooms, st, n, now, now);
    var record := RecordBefore(st.bookings, n);
    var after := SyncBooking(rooms, st, n, now).bookings[PlaceOf(st.bookings, n.id)];
    if Concerns(room)(Normalized(after)) {
      assert Some(room.key) == ResolveRoom(rooms, n);
    }
    if record in st.bookings && Concerns(room)(Normalized(record)) {
      assert Tracked(rooms, record);
    }
  }

  lemma FilterReplaced<T>(keep: T -> bool, s: seq<T>, k: nat, x: T)
    requires k < |s| && (s[k] == x || (!keep(s[k]) && !keep(x)))
    ensures Filter(keep, s[k := x]) == Filter(keep, s)
  {
    var front, back := s[..k], s[k + 1..];
    assert s == front + ([s[k]] + back) && s[k := x] == front + ([x] + back);
    FilterAppend(keep, front, [s[k]] + back);
    FilterAppend(keep, front, [x] + back);
    FilterAppend(keep, [s[k]], back);
    FilterAppend(keep, [x], back);
    FilterOne(keep, s[k]);
    FilterOne(keep, x);
  }

  /** What an evaluation of the room looks at. */
  function ViewOf(room: Room, bookings: seq<BookingRecord>): seq<Booking> {
    Filter(Concerns(room), Loaded(bookings))
  }

  /** Synchronizing one booking leaves the view of every room alone that it does not report as affected. */
  lemma UnaffectedView(rooms: seq<Room>, st: SyncState, n: Booking, now: int, room: Room)
    requires room in rooms && StoreOk(st.bookings, now)
    requires AllTracked(rooms, st.bookings) && MatchingAgrees(rooms, n) && HashFaithful(st.bookings, n)
    requires room.key !in SyncBooking(rooms, st, n, now).affected
    ensures ViewOf(room, SyncBooking(rooms, st, n, now).bookings) == ViewOf(room, st.bookings)
  {
    hide Concerns, Filter, SyncBooking, StoreOk, Normalized;
    SyncPutsFresh(rooms, st, n, now, now);
    UnaffectedRecord(rooms, st, n, now, room);
    var k, after := PlaceOf(st.bookings, n.id), SyncBooking(rooms, st, n, now).bookings;
    if k < |st.bookings| {
      assert Loaded(after) == Loaded(st.bookings)[k := Normalized(after[k])];
      FilterReplaced(Concerns(room), Loaded(st.bookings), k, Normalized(after[k]));
    } else {
      UnaffectedNewRecord(rooms, st, n, now, room);
      assert Loaded(after) == Loaded(st.bookings) + [Normalized(after[k])];
      FilterAppend(Concerns(room), Loaded(st.bookings), [Normalized(after[k])]);
      FilterOne(Concerns(room), Normalized(after[k]));
    }
  }

  lemma UnaffectedNewRecord(rooms: seq<Room>, st: SyncState, n: Booking, now: int, room: Room)
    requires room in rooms && StoreOk(st.bookings, now) && MatchingAgrees(rooms, n)
    requires PlaceOf(st.bookings, n.id) == |st.bookings|
    requires room.key !in SyncBooking(rooms, st, n, now).affected
    ensures !Concerns(room)(Normalized(SyncBooking(rooms, st, n, now).bookings[|st.bookings|]))
  {
    hide Concerns, ResolveRoom, HistoryOk;
    SyncPutsFresh(rooms, st, n, now, now);
  }

  lemma StaysTracked(rooms: seq<Room>, st: SyncState, n: Booking, now: int)
    requires StoreOk(st.bookings, now) && AllTracked(rooms, st.bookings) && MatchingAgrees(rooms, n)
    ensures StoreOk(SyncBooking(rooms, st, n, now).bookings, now)
    ensures AllTracked(rooms, SyncBooking(rooms, st, n, now).bookings)
    ensures st.affected <= SyncBooking(rooms, st, n, now).affected
  {
    hide Concerns, ResolveRoom, SyncAssignment;
    SyncPutsFresh(rooms, st, n, now, now);
    var after := SyncBooking(rooms, st, n, now).bookings;
    forall i | 0 <= i < |after|
      ensures Tracked(rooms, after[i])
    {
      if i != PlaceOf(st.bookings, n.id) {
        assert after[i] == st.bookings[i];
      }
    }
  }

  /** The hash hypothesis for a whole list, each booking compared with what is stored when its turn comes. */
  ghost predicate AllFaithful(rooms: seq<Room>, st: SyncState, ns: seq<Booking>, now: int) {
    forall i :: 0 <= i < |ns| ==> HashFaithful(SyncBookings(rooms, st, ns[..i], now).bookings, ns[i])
  }

  lemma {:induction false} SyncKeepsUnaffected(rooms: seq<Room>, st: SyncState, ns: seq<Booking>, now: int)
    requires StoreOk(st.bookings, now) && AllTracked(rooms, st.bookings)
    requires AllFaithful(rooms, st, ns, now) && forall i :: 0 <= i < |ns| ==> MatchingAgrees(rooms, ns[i])
    ensures var after := SyncBookings(rooms, st, ns, now);
            && StoreOk(after.bookings, now)
            && AllTracked(rooms, after.bookings)
            && st.affected <= after.affected
            && forall room :: room in rooms && room.key !in after.affected ==> ViewOf(room, after.bookings) == ViewOf(room, st.bookings)
  {
    if ns != [] {
      hide StoreOk, AllTracked, MatchingAgrees, HashFaithful, ViewOf, SyncBooking;
      var earlier, n := ns[..|ns| - 1], ns[|ns| - 1];
      forall i | 0 <= i < |earlier|
        ensures HashFaithful(SyncBookings(rooms, st, earlier[..i], now).bookings, earlier[i])
      {
        assert earlier[..i] == ns[..i];
      }
      SyncKeepsUnaffected(rooms, st, earlier, now);
      var before := SyncBookings(rooms, st, earlier, now);
      StaysTracked(rooms, before, n, now);
      forall room | room in rooms && room.key !in SyncBooking(rooms, before, n, now).affected
        ensures ViewOf(room, SyncBooking(rooms, before, n, now).bookings) == ViewOf(room, before.bookings)
      {
        UnaffectedView(rooms, before, n, now, room);
      }
    }
  }

  /** A recalculation depends on the bookings by the room's view alone. */
  lemma SameViewSameRecalculation(room: Room, before: seq<BookingRecord>, after: seq<BookingRecord>, record: RoomRecord, policy: Policy,
                                  now: int, ids: RowIds, correlationId: int)
    requires ViewOf(room, after) == ViewOf(room, before)
    ensures RecalculateRoom(record, room, Loaded(after), policy, now, ids, correlationId)
         == RecalculateRoom(record, room, Loaded(before), policy, now, ids, correlationId)
  {
    hide EvaluateRoom, Filter;
    var override := ActiveOverride(LatestOverride(record), now);
    EvaluationIsLocal(room, Loaded(before), now, policy, override);
    EvaluationIsLocal(room, Loaded(after), now, policy, override);
  }

  /**
   Incremental agrees with full: for a room outside the affected set, recalculating it from the bookings
   after the synchronization gives what it would have given before, whenever, under every policy and for every
   record of the room; so skipping it loses nothing that the synchronization brought.
   */
  lemma IncrementalAgreesWithFull(rooms: seq<Room>, bookings: seq<BookingRecord>, ns: seq<Booking>, at: int, room: Room,
                                  record: RoomRecord, policy: Policy, now: int, ids: RowIds, correlationId: int)
    requires StoreOk(bookings, at) && AllTracked(rooms, bookings)
    requires AllFaithful(rooms, SyncState(bookings, {}), ns, at) && forall i :: 0 <= i < |ns| ==> MatchingAgrees(rooms, ns[i])
    requires room in rooms && room.key !in SyncBookings(rooms, SyncState(bookings, {}), ns, at).affected
    ensures var after := SyncBookings(rooms, SyncState(bookings, {}), ns, at).bookings;
            (RecalculateRoom(record, room, Loaded(after), policy, now, ids, correlationId)
             == RecalculateRoom(record, room, Loaded(bookings), policy, now, ids, correlationId))
  {
    hide RecalculateRoom, SyncBookings, StoreOk, AllTracked, MatchingAgrees, ViewOf;
    SyncKeepsUnaffected(rooms, SyncState(bookings, {}), ns, at);
    var after := SyncBookings(rooms, SyncState(bookings, {}), ns, at).bookings;
    SameViewSameRecalculation(room, bookings, after, record, policy, now, ids, correlationId);
  }

  /**
   Without that agreement the claim fails: a booking of unknown status without a room stops a room that has
   no Clock id, but does not mark it as affected.
   */
  lemma UnknownBookingEscapes(policy: Policy, now: int, at: int) returns (room: Room, n: Booking)
    ensures n.status.UnknownStatus? && !n.HasPhysicalRoom()
    ensures room.key !in SyncBookings([room], SyncState([], {}), [n], at).affected
    ensures EvaluateRoom(room, Loaded([]), now, policy, None).phase.Vacant?
    ensures EvaluateRoom(room, Loaded(SyncBookings([room], SyncState([], {}), [n], at).bookings), now, policy, None).phase.UnknownPhase?
  {
    room := Room("101", "a", None, Some(1), true);
    n := Booking("b", UnknownStatus, 0, 1, None, None, "");
    var st := SyncState([], {});
    assert [n][..0] == [];
    assert SyncBookings([room], st, [n], at) == SyncBooking([room], st, n, at);
    var after := SyncBooking([room], st, n, at).bookings;
    assert Loaded(after) == [n];
    FilterOne(IsUnknown(room), n);
  }

  // Exactly which synchronizations leave a room's view alone

  /** The booking as the list has it last. */
  function LastOf(ns: seq<Booking>, id: string): (r: Option<Booking>)
    ensures r.Some? <==> exists i :: 0 <= i < |ns| && ns[i].id == id
    ensures r.Some? ==> r.value in ns && r.value.id == id
  {
    if ns == [] then None
    else if ns[|ns| - 1].id == id then
      assert ns[|ns| - 1].id == id;
      Some(ns[|ns| - 1])
    else
      LastOf(ns[..|ns| - 1], id)
  }

  /** What a room sees of a booking, if anything, stays the same. */
  predicate SameSight(room: Room, before: Booking, after: Booking) {
    if Concerns(room)(before) then after == before else !Concerns(room)(after)
  }

  /** The room sees the same of the synchronized booking before and after; for a new booking, nothing. */
  predicate Unnoticed(room: Room, bookings: seq<BookingRecord>, n: Booking) {
    var k := PlaceOf(bookings, n.id);
    if k < |bookings| then SameSight(room, Normalized(bookings[k]), Stripped(n))
    else !Concerns(room)(Stripped(n))
  }

  ghost predicate SameSights(room: Room, s: seq<Booking>, t: seq<Booking>) {
    && |s| <= |t|
    && (forall i :: 0 <= i < |s| ==> SameSight(room, s[i], t[i]))
    && (forall i :: |s| <= i < |t| ==> !Concerns(room)(t[i]))
  }

  lemma {:induction false} SameSightsSameView(room: Room, s: seq<Booking>, t: seq<Booking>)
    requires SameSights(room, s, t)
    ensures Filter(Concerns(room), s) == Filter(Concerns(room), t)
  {
    hide Concerns;
    if t != [] && s != [] {
      assert SameSights(room, s[1..], t[1..]) by {
        assert forall i :: 0 <= i < |s| - 1 ==> s[1..][i] == s[i + 1] && t[1..][i] == t[i + 1];
      }
      SameSightsSameView(room, s[1..], t[1..]);
      assert SameSight(room, s[0], t[0]);
    } else {
      FilterNone(Concerns(room), t);
    }
  }

  /** After a list of bookings, every record shows its booking as the list had it last, or as it was. */
  ghost predicate ShowsList(before: seq<BookingRecord>, ns: seq<Booking>, after: seq<BookingRecord>) {
    && |before| <= |after|
    && (forall i :: 0 <= i < |after| ==>
          var last := LastOf(ns, after[i].row.id);
          && (i < |before| ==> after[i].row.id == before[i].row.id)
          && (last.Some? ==> Normalized(after[i]) == Stripped(last.value))
          && (last.None? ==> i < |before| && after[i] == before[i]))
    && (forall n :: n in ns ==> PlaceOf(after, n.id) < |after|)
  }

  lemma {:induction false} SyncShowsList(rooms: seq<Room>, st: SyncState, ns: seq<Booking>, now: int)
    requires StoreOk(st.bookings, now)
    ensures StoreOk(SyncBookings(rooms, st, ns, now).bookings, now)
    ensures ShowsList(st.bookings, ns, SyncBookings(rooms, st, ns, now).bookings)
  {
    hide SyncBooking, ShowsList, StoreOk;
    if ns == [] {
      NothingShown(st.bookings);
    } else {
      var earlier, n := ns[..|ns| - 1], ns[|ns| - 1];
      SyncShowsList(rooms, st, earlier, now);
      var before := SyncBookings(rooms, st, earlier, now);
      SyncPutsFresh(rooms, before, n, now, now);
      ShowsOneMore(rooms, st.bookings, earlier, before, n, SyncBooking(rooms, before, n, now), now);
      assert earlier + [n] == ns;
    }
  }

  lemma NothingShown(bookings: seq<BookingRecord>)
    ensures ShowsList(bookings, [], bookings)
  {
  }

  lemma ShowsOneMore(rooms: seq<Room>, start: seq<BookingRecord>, earlier: seq<Booking>, before: SyncState, n: Booking, after: SyncState, now: int)
    requires StoreOk(before.bookings, now) && StoreOk(after.bookings, now)
    requires ShowsList(start, earlier, before.bookings) && PutFresh(rooms, before, after, n)
    ensures ShowsList(start, earlier + [n], after.bookings)
  {
    hide Normalized, Stripped, HistoryOk, Extends, ResolveRoom;
    var ns := earlier + [n];
    assert ns[..|ns| - 1] == earlier;
    var k := PlaceOf(before.bookings, n.id);
    forall i | 0 <= i < |after.bookings|
      ensures var last := LastOf(ns, after.bookings[i].row.id);
              && (i < |start| ==> after.bookings[i].row.id == start[i].row.id)
              && (last.Some? ==> Normalized(after.bookings[i]) == Stripped(last.value))
              && (last.None? ==> i < |start| && after.bookings[i] == start[i])
    {
      if i != k {
        assert after.bookings[i] == before.bookings[i];
        assert after.bookings[i].row.id != after.bookings[k].row.id;
      }
    }
    forall m | m in ns
      ensures PlaceOf(after.bookings, m.id) < |after.bookings|
    {
      if m.id == n.id {
        assert after.bookings[k].row.id == m.id;
      } else {
        assert m in earlier;
        var j := PlaceOf(before.bookings, m.id);
        assert after.bookings[j].row.id == m.id;
      }
    }
  }

  lemma PlaceIsUnique(bookings: seq<BookingRecord>, i: nat, now: int)
    requires StoreOk(bookings, now) && i < |bookings|
    ensures PlaceOf(bookings, bookings[i].row.id) == i
  {
    var k := PlaceOf(bookings, bookings[i].row.id);
    assert bookings[k].row.id == bookings[i].row.id;
  }

  /** Where a room's view is the same, the room sees of each booking what it saw before. */
  lemma SameViewSameSight(room: Room, before: seq<BookingRecord>, ns: seq<Booking>, after: seq<BookingRecord>, n: Booking, now: int)
    requires StoreOk(before, now) && StoreOk(after, now) && ShowsList(before, ns, after)
    requires ViewOf(room, after) == ViewOf(room, before)
    requires n in ns && LastOf(ns, n.id) == Some(n)
    ensures Unnoticed(room, before, n)
  {
    hide Concerns, Normalized, Filter, HistoryOk;
    var j := PlaceOf(after, n.id);
    var k := PlaceOf(before, n.id);
    assert Normalized(after[j]) == Stripped(n);
    if Concerns(room)(Stripped(n)) {
      assert Loaded(after)[j] == Stripped(n);
      FilterKeeps(Concerns(room), Loaded(after), Stripped(n));
      var i :| 0 <= i < |before| && Loaded(before)[i] == Stripped(n);
      IdOfNormalized(before[i], n);
      PlaceIsUnique(before, i, now);
    }
    if k < |before| && Concerns(room)(Normalized(before[k])) {
      assert Loaded(before)[k] == Normalized(before[k]);
      FilterKeeps(Concerns(room), Loaded(before), Normalized(before[k]));
      var i :| 0 <= i < |after| && Loaded(after)[i] == Normalized(before[k]);
      NormalizedId(before[k]);
      NormalizedId(after[i]);
      PlaceIsUnique(after, i, now);
    }
  }

  lemma NormalizedId(record: BookingRecord)
    ensures Normalized(record).id == record.row.id
  {
  }

  lemma IdOfNormalized(record: BookingRecord, n: Booking)
    requires Normalized(record) == Stripped(n)
    ensures record.row.id == n.id
  {
  }

  /**
   Exactly when a synchronization leaves a room's view alone, with no hypothesis on matching or hashes: when, for
   every booking it brings, as it brings it last, the room sees the same before and after. Each of these conditions is
   about the stored booking and the one that comes, before anything is synchronized.
   */
  lemma ViewIsKeptExactly(rooms: seq<Room>, bookings: seq<BookingRecord>, ns: seq<Booking>, at: int, room: Room)
    requires StoreOk(bookings, at)
    ensures ViewOf(room, SyncBookings(rooms, SyncState(bookings, {}), ns, at).bookings) == ViewOf(room, bookings)
       <==> forall n :: n in ns && LastOf(ns, n.id) == Some(n) ==> Unnoticed(room, bookings, n)
  {
    hide Concerns, Filter, SyncBookings, StoreOk, Normalized, Unnoticed, ShowsList;
    SyncShowsList(rooms, SyncState(bookings, {}), ns, at);
    var after := SyncBookings(rooms, SyncState(bookings, {}), ns, at).bookings;
    if ViewOf(room, after) == ViewOf(room, bookings) {
      forall n | n in ns && LastOf(ns, n.id) == Some(n)
        ensures Unnoticed(room, bookings, n)
      {
        SameViewSameSight(room, bookings, ns, after, n, at);
      }
    }
    if forall n :: n in ns && LastOf(ns, n.id) == Some(n) ==> Unnoticed(room, bookings, n) {
      UnnoticedSights(room, bookings, ns, after, at);
      SameSightsSameView(room, Loaded(bookings), Loaded(after));
    }
  }

  lemma AddedIsNew(before: seq<BookingRecord>, ns: seq<Booking>, after: seq<BookingRecord>, i: nat, now: int)
    requires StoreOk(after, now) && ShowsList(before, ns, after) && |before| <= i < |after|
    ensures PlaceOf(before, after[i].row.id) == |before|
  {
    forall k | 0 <= k < |before|
      ensures before[k].row.id != after[i].row.id
    {
      assert after[k].row.id == before[k].row.id;
    }
  }

  lemma UnnoticedSights(room: Room, before: seq<BookingRecord>, ns: seq<Booking>, after: seq<BookingRecord>, now: int)
    requires StoreOk(before, now) && StoreOk(after, now) && ShowsList(before, ns, after)
    requires forall n :: n in ns && LastOf(ns, n.id) == Some(n) ==> Unnoticed(room, before, n)
    ensures SameSights(room, Loaded(before), Loaded(after))
  {
    hide Concerns, Normalized, HistoryOk, Stripped;
    forall i | 0 <= i < |after|
      ensures i < |before| ==> SameSight(room, Normalized(before[i]), Normalized(after[i]))
      ensures i >= |before| ==> !Concerns(room)(Normalized(after[i]))
    {
      var last := LastOf(ns, after[i].row.id);
      PlaceIsUnique(after, i, now);
      if i < |before| {
        PlaceIsUnique(before, i, now);
      } else {
        AddedIsNew(before, ns, after, i, now);
      }
      if last.Some? {
        assert Unnoticed(room, before, last.value);
      }
    }
  }

  /** For a single booking: a skipped room loses nothing exactly when it sees the same of it before and after. */
  lemma OneBookingExactly(rooms: seq<Room>, bookings: seq<BookingRecord>, n: Booking, at: int, room: Room)
    requires StoreOk(bookings, at)
    ensures ViewOf(room, SyncBooking(rooms, SyncState(bookings, {}), n, at).bookings) == ViewOf(room, bookings)
       <==> Unnoticed(room, bookings, n)
  {
    hide Concerns, Filter, SyncBooking, StoreOk, Unnoticed, ViewOf;
    assert [n][..0] == [];
    assert SyncBookings(rooms, SyncState(bookings, {}), [n], at) == SyncBooking(rooms, SyncState(bookings, {}), n, at);
    ViewIsKeptExactly(rooms, bookings, [n], at, room);
    assert n in [n];
    assert forall m :: m in [n] ==> m == n;
  }

  /** Without a faithful hash it fails too: a guest who checks in under an unchanged hash is not noticed by the room. */
  lemma StaleHashEscapes(policy: Policy, at: int) returns (room: Room, bookings: seq<BookingRecord>, n: Booking)
    requires policy.Valid()
    ensures StoreOk(bookings, at) && AllTracked([room], bookings) && MatchingAgrees([room], n)
    ensures !HashFaithful(bookings, n)
    ensures room.key !in SyncBooking([room], SyncState(bookings, {}), n, at).affected
    ensures EvaluateRoom(room, Loaded(bookings), 0, policy, None).phase != EvaluateRoom(
              room, Loaded(SyncBooking([room], SyncState(bookings, {}), n, at).bookings), 0, policy, None).phase
  {
    room := Room("101", "a", None, Some(1), true);
    var expected := Booking("b", Expected, 1, 2, None, Some("101"), "h");
    n := expected.(status := CheckedIn);
    var rows := [AssignmentRow(Some("101"), None, Some("101"), at, None, true)];
    bookings := [BookingRecord(RowOf(expected), rows)];
    OnlyCurrent(rows, 0);
    var after := SyncBooking([room], SyncState(bookings, {}), n, at).bookings;
    assert [room][0] == room;
    assert ResolveRoom([room], n) == Some("101") by {
      assert room in [room];
    }
    assert after == [BookingRecord(RowOf(n), rows)];
    assert Loaded(bookings) == [expected] && Loaded(after) == [n];
    LonelyGuest(room, policy, expected);
    LonelyGuest(room, policy, n);
  }

  lemma LonelyGuest(room: Room, policy: Policy, guest: Booking)
    requires room.enabled && IsCandidate(room, 0)(guest) && policy.Valid() && guest.departure == 2
    ensures EvaluateRoom(room, [guest], 0, policy, None).phase.Occupied? <==> guest.status.CheckedIn?
  {
    FilterOne(IsCandidate(room, 0), guest);
    FilterOne(IsUnknown(room), guest);
    FirstFrontrunnerIsSelected([guest], policy);
  }

  // Rooms and affected sets, from the bookings

  /** The last room of the registry that has the booking's Clock room id. */
  predicate NamedById(rooms: seq<Room>, n: Booking, i: nat)
    requires i < |rooms|
  {
    n.roomId.Some? && n.roomId.value != "" && rooms[i].clockRoomId == n.roomId
    && forall j :: i < j < |rooms| ==> rooms[j].clockRoomId != n.roomId
  }

  /** Some room of the registry has the booking's Clock room id. */
  predicate HasRoomById(rooms: seq<Room>, n: Booking) {
    n.roomId.Some? && n.roomId.value != "" && exists i :: 0 <= i < |rooms| && rooms[i].clockRoomId == n.roomId
  }

  predicate HasRoomByNumber(rooms: seq<Room>, n: Booking) {
    n.roomNumber.Some? && n.roomNumber.value != "" && exists i :: 0 <= i < |rooms| && rooms[i].key == n.roomNumber.value
  }

  /** For whom resolution answers: the last room with the booking's Clock id, otherwise the room of its number, otherwise none. */
  lemma ResolvedExactly(rooms: seq<Room>, n: Booking)
    ensures forall i :: 0 <= i < |rooms| && NamedById(rooms, n, i) ==> ResolveRoom(rooms, n) == Some(rooms[i].key)
    ensures !HasRoomById(rooms, n) && HasRoomByNumber(rooms, n) ==> ResolveRoom(rooms, n) == n.roomNumber
    ensures ResolveRoom(rooms, n).None? <==> !HasRoomById(rooms, n) && !HasRoomByNumber(rooms, n)
  {
    var byId := HasClockIdOf(n);
    var found := LastMatch(byId, rooms);
    if HasRoomByNumber(rooms, n) {
      var i :| 0 <= i < |rooms| && rooms[i].key == n.roomNumber.value;
      assert rooms[i] in rooms;
    }
    if found.Some? {
      var k :| 0 <= k < |rooms| && rooms[k] == found.value && forall i :: k < i < |rooms| ==> !byId(rooms[i]);
      forall i | 0 <= i < |rooms| && NamedById(rooms, n, i)
        ensures rooms[i].key == found.value.key
      {
        assert byId(rooms[i]) && byId(rooms[k]);
      }
    }
  }

  /** The booking's assignment moved: it was made or ended, or its identity or its room is another one. */
  predicate Moved(before: Option<AssignmentRow>, n: Booking, room: Option<string>) {
    if n.HasPhysicalRoom() then before.None? || !SameIdentity(before.value, n) || before.value.room != room
    else before.Some?
  }

  /**
   The affected rooms of one booking, exactly: the room it was in and the room it is in now, if its assignment moved;
   the room it is in, if its hash changed.
   */
  lemma AffectedExactly(rooms: seq<Room>, st: SyncState, n: Booking, now: int, key: string)
    ensures var before := CurrentAssignment(RecordBefore(st.bookings, n).assignments);
            var room := if n.HasPhysicalRoom() then ResolveRoom(rooms, n) else None;
            var isNew := forall i :: 0 <= i < |st.bookings| ==> st.bookings[i].row.id != n.id;
            key in SyncBooking(rooms, st, n, now).affected <==>
              || key in st.affected
              || (Moved(before, n, room) && ((before.Some? && before.value.room == Some(key)) || room == Some(key)))
              || ((isNew || RecordBefore(st.bookings, n).row.payloadHash != n.payloadHash) && room == Some(key))
  {
    hide ResolveRoom;
    var k := PlaceOf(st.bookings, n.id);
    assert k < |st.bookings| ==> st.bookings[k].row.id == n.id;
  }

  /** The room that a booking resolves to is one that looks at it. */
  lemma ResolvedRoomLooks(rooms: seq<Room>, n: Booking, room: Room)
    requires forall i, j :: 0 <= i < j < |rooms| ==> rooms[i].key != rooms[j].key
    requires room in rooms && ResolveRoom(rooms, n) == Some(room.key)
    ensures n.HasPhysicalRoom()
    ensures n.ActiveForAutomation() || n.status.UnknownStatus? ==> Concerns(room)(n)
  {
    var byId := HasClockIdOf(n);
    var found := LastMatch(byId, rooms);
    if Truthy(n.roomId) && found.Some? {
      var i :| 0 <= i < |rooms| && rooms[i] == found.value;
      var j :| 0 <= j < |rooms| && rooms[j] == room;
      assert rooms[i].key == rooms[j].key;
      assert i == j;
      assert MatchesRoom(room, n) && MatchesRoomAsUnknown(room, n);
    } else {
      assert n.roomNumber == Some(room.key);
      assert MatchesRoom(room, n) && MatchesRoomAsUnknown(room, n);
    }
    assert IsUnknown(room)(n) <==> n.status.UnknownStatus? && MatchesRoomAsUnknown(room, n);
  }
}
