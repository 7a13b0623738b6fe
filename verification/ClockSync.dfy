/**
 Polling the property management system (app/clock/sync.py), and why no instant of it is missed.
 */
module ClockSync {
  import opened Domain
  import opened Store

  datatype SyncSettings = SyncSettings(overlapSeconds: int, reconciliationDaysPast: int)
  {
    predicate Valid() {
      0 <= overlapSeconds && 0 <= reconciliationDaysPast
    }
  }

  datatype SyncRunResult = SyncRunResult(
    success: bool,
    bookings: seq<Booking>,
    startedAt: int,
    finishedAt: int,
    nextCursor: SyncCursorState)

  function IncrementalWindowStart(cursor: SyncCursorState, settings: SyncSettings, now: int): int {
    if cursor.lastSuccessAt.None? then now - settings.reconciliationDaysPast * DAY
    else cursor.lastSuccessAt.value - settings.overlapSeconds * SECOND
  }

  // Pages

  /** An answer to one page request: an exception, or payloads, of which the normalizer rejects some. */
  datatype PageAnswer = ListingFailed | Page(items: seq<Option<Booking>>, next: Option<string>)

  datatype PageRequest = PageRequest(updatedSince: int, cursor: Option<string>)

  /** The answers lead to an end of the listing. */
  predicate Ends(answers: seq<PageAnswer>) {
    exists i :: 0 <= i < |answers| && (answers[i].ListingFailed? || answers[i].next.None?)
  }

  /** The payloads of all pages up to the last one, or None if a request failed. */
  function Listing(answers: seq<PageAnswer>): Option<seq<Option<Booking>>>
    requires Ends(answers)
  {
    if answers[0].ListingFailed? then None
    else if answers[0].next.None? then Some(answers[0].items)
    else
      assert Ends(answers[1..]) by {
        var i :| 0 <= i < |answers| && (answers[i].ListingFailed? || answers[i].next.None?);
        assert answers[1..][i - 1] == answers[i];
      }
      Prefixed(answers[0].items, Listing(answers[1..]))
  }

  function Prefixed(items: seq<Option<Booking>>, rest: Option<seq<Option<Booking>>>): Option<seq<Option<Booking>>> {
    if rest.None? then None else Some(items + rest.value)
  }

  lemma PrefixedTwice(a: seq<Option<Booking>>, b: seq<Option<Booking>>, rest: Option<seq<Option<Booking>>>)
    ensures Prefixed(a, Prefixed(b, rest)) == Prefixed(a + b, rest)
    ensures Prefixed([], rest) == rest
  {
    if rest.Some? {
      assert a + (b + rest.value) == a + b + rest.value;
      assert [] + rest.value == rest.value;
    }
  }

  predicate AllNormalized(items: seq<Option<Booking>>) {
    forall i :: 0 <= i < |items| ==> items[i].Some?
  }

  function Normalized(items: seq<Option<Booking>>): seq<Booking>
    requires AllNormalized(items)
  {
    seq(|items|, i requires 0 <= i < |items| => items[i].value)
  }

  /** Each request continues where the page before it ended. */
  predicate Continues(requests: seq<PageRequest>, answers: seq<PageAnswer>, cursor: Option<string>, updatedSince: int) {
    && |requests| <= |answers|
    && forall i :: 0 <= i < |requests| ==>
         && requests[i].updatedSince == updatedSince
         && requests[i].cursor == (if i == 0 then cursor
                                   else if answers[i - 1].Page? then answers[i - 1].next else None)
  }

  function Failure(cursor: SyncCursorState, now: int): SyncRunResult {
    SyncRunResult(false, [], now, now, cursor)
  }

  /** What a poll gives: everything that was listed, or a failure that leaves the cursor where it was. */
  function PollResult(cursor: SyncCursorState, now: int, answers: seq<PageAnswer>): SyncRunResult
    requires Ends(answers)
  {
    var items := Listing(answers);
    if items.Some? then ResultFor(cursor, now, items.value) else Failure(cursor, now)
  }

  /** A payload that the normalizer rejects fails the whole poll. */
  function ResultFor(cursor: SyncCursorState, now: int, items: seq<Option<Booking>>): SyncRunResult {
    if AllNormalized(items) then SyncRunResult(true, Normalized(items), now, now, SyncCursorState(Some(now), None))
    else Failure(cursor, now)
  }

  method PollOnce(cursor: SyncCursorState, settings: SyncSettings, now: int, answers: seq<PageAnswer>)
    returns (result: SyncRunResult, requests: seq<PageRequest>)
    requires Ends(answers)
    ensures Continues(requests, answers, cursor.cursorValue, IncrementalWindowStart(cursor, settings, now))
    ensures result == PollResult(cursor, now, answers)
  {
    hide ResultFor;
    var updatedSince := IncrementalWindowStart(cursor, settings, now);
    var raw: seq<Option<Booking>> := [];
    var next := cursor.cursorValue;
    requests := [];
    var i := 0;
    assert answers[0..] == answers;
    PrefixedTwice([], [], Listing(answers));
    while true
      invariant 0 <= i < |answers| && |requests| == i
      invariant Ends(answers[i..])
      invariant i > 0 ==> answers[i - 1].Page? && next == answers[i - 1].next
      invariant i == 0 ==> next == cursor.cursorValue
      invariant Continues(requests, answers, cursor.cursorValue, updatedSince)
      invariant Listing(answers) == Prefixed(raw, Listing(answers[i..]))
      decreases |answers| - i
    {
      requests := requests + [PageRequest(updatedSince, next)];
      var page := answers[i];
      assert answers[i..][0] == page;
      if page.ListingFailed? {
        return Failure(cursor, now), requests;
      }
      raw := raw + page.items;
      next := page.next;
      if next.None? {
        break;
      }
      assert answers[i..][1..] == answers[i + 1..];
      PrefixedTwice(raw[..|raw| - |page.items|], page.items, Listing(answers[i + 1..]));
      i := i + 1;
    }
    assert Listing(answers) == Some(raw);
    result := ResultFor(cursor, now, raw);
  }

  // Coverage

  /** A poll at an instant, and whether it succeeded and its result was committed. */
  datatype Poll = Poll(at: int, committed: bool)

  const NeverSynced := SyncCursorState(None, None)

  /** The stored cursor after the polls: a poll that failed or was rolled back leaves it alone. */
  function CursorAfter(polls: seq<Poll>): SyncCursorState {
    if polls == [] then NeverSynced
    else if polls[|polls| - 1].committed then SyncCursorState(Some(polls[|polls| - 1].at), None)
    else CursorAfter(polls[..|polls| - 1])
  }

  function WindowStart(polls: seq<Poll>, i: nat, settings: SyncSettings): int
    requires i < |polls|
  {
    IncrementalWindowStart(CursorAfter(polls[..i]), settings, polls[i].at)
  }

  ghost predicate Ordered(polls: seq<Poll>) {
    forall i, j :: 0 <= i < j < |polls| ==> polls[i].at <= polls[j].at
  }

  ghost predicate Covered(polls: seq<Poll>, settings: SyncSettings, instant: int) {
    exists i :: 0 <= i < |polls| && polls[i].committed && WindowStart(polls, i, settings) <= instant <= polls[i].at
  }

  ghost predicate NoneCommitted(polls: seq<Poll>, from: nat) {
    forall i :: from <= i < |polls| ==> !polls[i].committed
  }

  /** The last committed poll. */
  ghost predicate IsLastCommitted(polls: seq<Poll>, k: nat) {
    k < |polls| && polls[k].committed && NoneCommitted(polls, k + 1)
  }

  /** The stored cursor never carries a page to continue with; it holds the time of the last committed poll. */
  lemma {:induction false} CursorAfterPolls(polls: seq<Poll>) returns (k: nat)
    ensures CursorAfter(polls).cursorValue.None?
    ensures CursorAfter(polls).lastSuccessAt.None? ==> NoneCommitted(polls, 0)
    ensures CursorAfter(polls).lastSuccessAt.Some? ==>
              IsLastCommitted(polls, k) && CursorAfter(polls).lastSuccessAt == Some(polls[k].at)
  {
    k := 0;
    if polls != [] {
      if polls[|polls| - 1].committed {
        k := |polls| - 1;
      } else {
        k := CursorAfterPolls(polls[..|polls| - 1]);
      }
    }
  }

  /**
   Over any run of polls with a clock that does not run backwards, committed or not, the windows of
   the committed polls cover every instant from the start of the first such window to the last success.
   */
  lemma {:induction false} NoGaps(polls: seq<Poll>, settings: SyncSettings, first: nat, last: nat, instant: int)
    requires settings.Valid() && Ordered(polls)
    requires first <= last < |polls| && polls[first].committed && polls[last].committed
    requires forall i :: 0 <= i < first ==> !polls[i].committed
    requires WindowStart(polls, first, settings) <= instant <= polls[last].at
    ensures Covered(polls, settings, instant)
    decreases last
  {
    if WindowStart(polls, last, settings) <= instant {
    } else {
      var k := CursorAfterPolls(polls[..last]);
      var cursor := CursorAfter(polls[..last]);
      if first < last {
        assert polls[..last][first].committed;
      }
      if cursor.lastSuccessAt.Some? {
        assert polls[k].committed && instant < polls[k].at;
        NoGaps(polls, settings, first, k, instant);
      }
    }
  }

  /**
   How far each window reaches back: before any poll was committed, by the reconciliation days; afterwards, by the
   overlap seconds beyond the last committed poll.
   */
  lemma WindowsReachBack(polls: seq<Poll>, settings: SyncSettings, i: nat)
    requires settings.Valid() && i < |polls|
    ensures NoneCommitted(polls[..i], 0) ==> WindowStart(polls, i, settings) == polls[i].at - settings.reconciliationDaysPast * DAY
    ensures forall k :: 0 <= k < i && IsLastCommitted(polls[..i], k) ==>
              WindowStart(polls, i, settings) == polls[k].at - settings.overlapSeconds * SECOND
  {
    var newest := CursorAfterPolls(polls[..i]);
    forall k | 0 <= k < i && IsLastCommitted(polls[..i], k)
      ensures CursorAfter(polls[..i]).lastSuccessAt == Some(polls[k].at)
    {
      LastCommittedIsUnique(polls[..i], newest, k);
    }
  }

  lemma LastCommittedIsUnique(polls: seq<Poll>, newest: nat, k: nat)
    requires IsLastCommitted(polls, k)
    requires CursorAfter(polls).lastSuccessAt.None? ==> NoneCommitted(polls, 0)
    requires CursorAfter(polls).lastSuccessAt.Some? ==> IsLastCommitted(polls, newest) && CursorAfter(polls).lastSuccessAt == Some(polls[newest].at)
    ensures CursorAfter(polls).lastSuccessAt == Some(polls[k].at)
  {
    assert polls[k].committed;
  }
}
