/**
 Polls and the tables they are committed to: the windows that the stored cursor opens leave no gap.
 */
module Polling {
  import opened Domain
  import Control
  import opened Store
  import opened ClockSync
  import opened DbSync
  import opened HotelRuns

  /** A round of polling at an instant, or another step in between. */
  datatype Event =
    | Round(at: int, answers: seq<PageAnswer>, ids: RowIds, correlationId: int)
    | Other(step: Step)

  predicate Proper(event: Event) {
    if event.Round? then Ends(event.answers) else !event.step.Synchronized?
  }

  predicate AllProper(events: seq<Event>) {
    forall i :: 0 <= i < |events| ==> Proper(events[i])
  }

  function ResultOf(t: Tables, round: Event): SyncRunResult
    requires round.Round? && Proper(round)
  {
    PollResult(LoadCursorState(t), round.at, round.answers)
  }

  /** The poll listed everything, and no derivation made its transaction roll back. */
  predicate Commits(rooms: seq<Room>, policy: Policy, t: Tables, round: Event)
    requires round.Round? && Proper(round)
  {
    var result := ResultOf(t, round);
    && result.success
    && var st := SyncBookings(rooms, SyncState(t.bookings, {}), result.bookings, result.finishedAt);
       RecalculateRooms(rooms, st.affected, Loaded(st.bookings), policy, t.rooms, t.outbox, result.finishedAt, round.ids,
                        round.correlationId).Recalculated?
  }

  function TablesAfter(rooms: seq<Room>, policy: Policy, events: seq<Event>): Tables
    requires AllProper(events)
  {
    if events == [] then EmptyTables
    else
      var t, last := TablesAfter(rooms, policy, events[..|events| - 1]), events[|events| - 1];
      if last.Round? then ApplySyncResult(t, rooms, policy, ResultOf(t, last), last.ids, last.correlationId)
      else Advance(rooms, policy, t, last.step)
  }

  /** The rounds among the events, and which of them were committed. */
  function Polls(rooms: seq<Room>, policy: Policy, events: seq<Event>): seq<Poll>
    requires AllProper(events)
  {
    if events == [] then []
    else
      var earlier, last := events[..|events| - 1], events[|events| - 1];
      if last.Round? then Polls(rooms, policy, earlier) + [Poll(last.at, Commits(rooms, policy, TablesAfter(rooms, policy, earlier), last))]
      else Polls(rooms, policy, earlier)
  }

  /** The stored cursor is that of the last committed round, whatever else happened. */
  lemma {:induction false} CursorIsStored(rooms: seq<Room>, policy: Policy, events: seq<Event>)
    requires AllProper(events)
    ensures LoadCursorState(TablesAfter(rooms, policy, events)) == CursorAfter(Polls(rooms, policy, events))
  {
    if events != [] {
      hide RecalculateRooms, SyncBookings, PollResult, Control.BuildRow;
      var earlier, last := events[..|events| - 1], events[|events| - 1];
      CursorIsStored(rooms, policy, earlier);
      if last.Round? {
        CursorMoves(rooms, policy, TablesAfter(rooms, policy, earlier), last);
        var polls := Polls(rooms, policy, events);
        assert polls[..|polls| - 1] == Polls(rooms, policy, earlier);
      }
    }
  }

  lemma CursorMoves(rooms: seq<Room>, policy: Policy, t: Tables, round: Event)
    requires round.Round? && Proper(round)
    ensures LoadCursorState(ApplySyncResult(t, rooms, policy, ResultOf(t, round), round.ids, round.correlationId))
         == if Commits(rooms, policy, t, round) then SyncCursorState(Some(round.at), None) else LoadCursorState(t)
  {
    hide RecalculateRooms, SyncBookings, Listing;
  }

  /** The window that the round's poll asks for. */
  function WindowOf(rooms: seq<Room>, policy: Policy, events: seq<Event>, settings: SyncSettings, i: nat): int
    requires AllProper(events) && i < |events| && events[i].Round?
  {
    IncrementalWindowStart(LoadCursorState(TablesAfter(rooms, policy, events[..i])), settings, events[i].at)
  }

  /** Some committed round asked for a window that holds the instant. */
  ghost predicate Seen(rooms: seq<Room>, policy: Policy, events: seq<Event>, settings: SyncSettings, instant: int)
    requires AllProper(events)
  {
    exists i :: 0 <= i < |events| && events[i].Round?
      && Commits(rooms, policy, TablesAfter(rooms, policy, events[..i]), events[i])
      && WindowOf(rooms, policy, events, settings, i) <= instant <= events[i].at
  }

  lemma {:induction false} PollIsRound(rooms: seq<Room>, policy: Policy, events: seq<Event>, settings: SyncSettings, k: nat) returns (i: nat)
    requires AllProper(events) && k < |Polls(rooms, policy, events)|
    ensures i < |events| && events[i].Round?
    ensures Polls(rooms, policy, events)[k] == Poll(events[i].at, Commits(rooms, policy, TablesAfter(rooms, policy, events[..i]), events[i]))
    ensures WindowStart(Polls(rooms, policy, events), k, settings) == WindowOf(rooms, policy, events, settings, i)
  {
    hide Commits, Advance, ApplySyncResult;
    var earlier := events[..|events| - 1];
    var polls, before := Polls(rooms, policy, events), Polls(rooms, policy, earlier);
    if k < |before| {
      i := PollIsRound(rooms, policy, earlier, settings, k);
      assert earlier[..i] == events[..i];
      assert before[..k] == polls[..k];
    } else {
      i := |events| - 1;
      assert polls[..k] == before;
      CursorIsStored(rooms, policy, earlier);
    }
  }

  /**
   Poll coverage: over any run of rounds, failed, rolled back or committed, and with any ticks and commands in
   between, the windows of the committed rounds hold every instant from the start of the first one to the last success.
   */
  lemma PollsLeaveNoGap(rooms: seq<Room>, policy: Policy, events: seq<Event>, settings: SyncSettings, first: nat, last: nat, instant: int)
    requires settings.Valid() && AllProper(events) && Ordered(Polls(rooms, policy, events))
    requires first <= last < |Polls(rooms, policy, events)|
    requires Polls(rooms, policy, events)[first].committed && Polls(rooms, policy, events)[last].committed
    requires forall k :: 0 <= k < first ==> !Polls(rooms, policy, events)[k].committed
    requires WindowStart(Polls(rooms, policy, events), first, settings) <= instant <= Polls(rooms, policy, events)[last].at
    ensures Seen(rooms, policy, events, settings, instant)
    ensures LoadCursorState(TablesAfter(rooms, policy, events)).cursorValue.None?
  {
    hide Commits, Advance, ApplySyncResult;
    var polls := Polls(rooms, policy, events);
    NoGaps(polls, settings, first, last, instant);
    var k :| 0 <= k < |polls| && polls[k].committed && WindowStart(polls, k, settings) <= instant <= polls[k].at;
    var i := PollIsRound(rooms, policy, events, settings, k);
    CursorIsStored(rooms, policy, events);
    var newest := CursorAfterPolls(polls);
  }
}
