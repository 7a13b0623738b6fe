/**
 The transactional outbox (app/outbox/service.py): claiming, publishing, recording and releasing rows.
 */
module Outbox {
  import opened Arithmetic
  import opened Domain
  import opened Sequences
  import opened Store

  datatype OutboxStatus = Pending | Publishing | Retrying | Published | DeadLetter

  datatype OutboxRow = OutboxRow(
    id: int,
    message: Message,
    status: OutboxStatus,
    attempts: nat,
    nextAttemptAt: Option<int>,
    createdAt: int,
    claimedAt: Option<int>,
    claimedBy: Option<string>,
    publishedAt: Option<int>,
    lastError: Option<string>)

  datatype PendingMessage = PendingMessage(id: int, message: Message, attempts: nat)

  datatype PublishResult = PublishResult(id: int, published: bool, publishedAt: Option<int>, error: Option<string>)

  datatype RetryPolicy = RetryPolicy(maxAttempts: int, baseDelay: int, maxDelay: int, jitter: int)

  /** The random part of a delay, drawn anew for every recorded failure. */
  type Jitter = (int, nat) -> int

  ghost predicate JitterWithin(policy: RetryPolicy, jitter: Jitter) {
    forall id, attempts :: 0 <= jitter(id, attempts) <= (if policy.jitter > 0 then policy.jitter * SECOND else 0)
  }

  function NewRow(id: int, message: Message, now: int): OutboxRow {
    OutboxRow(id, message, Pending, 0, Some(now), now, None, None, None, None)
  }

  // Claiming

  predicate Claimable(row: OutboxRow, now: int) {
    && (row.status.Pending? || row.status.Retrying?)
    && (row.nextAttemptAt.None? || row.nextAttemptAt.value <= now)
  }

  predicate Older(a: OutboxRow, b: OutboxRow) {
    a.createdAt < b.createdAt || (a.createdAt == b.createdAt && a.id < b.id)
  }

  function Claim(row: OutboxRow, now: int, workerId: string): OutboxRow {
    row.(status := Publishing, claimedAt := Some(now), claimedBy := Some(workerId))
  }

  function PendingOf(row: OutboxRow): PendingMessage {
    PendingMessage(row.id, row.message, row.attempts)
  }

  ghost predicate DistinctIds(rows: seq<OutboxRow>) {
    forall i, j :: 0 <= i < j < |rows| ==> rows[i].id != rows[j].id
  }

  /** The place of the oldest claimable row, or the end. */
  function Oldest(rows: seq<OutboxRow>, now: int): (k: nat)
    ensures k <= |rows|
    ensures k < |rows| ==> Claimable(rows[k], now)
    ensures forall i :: 0 <= i < |rows| && Claimable(rows[i], now) ==> k < |rows| && !Older(rows[i], rows[k])
  {
    if rows == [] then 0
    else
      var last := |rows| - 1;
      var k := Oldest(rows[..last], now);
      if k == last then if Claimable(rows[last], now) then last else |rows|
      else if Claimable(rows[last], now) && Older(rows[last], rows[k]) then last
      else k
  }

  datatype Claimed = Claimed(rows: seq<OutboxRow>, messages: seq<PendingMessage>)

  function ClaimPending(rows: seq<OutboxRow>, now: int, workerId: string, limit: nat): (r: Claimed)
    ensures |r.rows| == |rows|
    decreases limit
  {
    var k := Oldest(rows, now);
    if limit == 0 || k == |rows| then Claimed(rows, [])
    else
      var rest := ClaimPending(rows[k := Claim(rows[k], now, workerId)], now, workerId, limit - 1);
      Claimed(rest.rows, [PendingOf(rows[k])] + rest.messages)
  }

  // Recording, releasing and retrying

  function PlaceOf(rows: seq<OutboxRow>, id: int): (k: nat)
    ensures k <= |rows|
    ensures k < |rows| ==> rows[k].id == id
    ensures k == |rows| ==> forall i :: 0 <= i < |rows| ==> rows[i].id != id
  {
    if rows == [] then 0
    else if rows[0].id == id then 0
    else 1 + PlaceOf(rows[1..], id)
  }

  function RetryDelay(policy: RetryPolicy, attempts: nat, jitter: int): int {
    var exponential := policy.baseDelay * Pow2(if attempts == 0 then 0 else attempts - 1);
    (if exponential <= policy.maxDelay then exponential else policy.maxDelay) * SECOND + jitter
  }

  function Recorded(row: OutboxRow, result: PublishResult, policy: RetryPolicy, now: int, jitter: Jitter): (r: OutboxRow)
    ensures r.id == row.id && r.message == row.message
  {
    var free := row.(claimedAt := None, claimedBy := None);
    if result.published then
      free.(status := Published, publishedAt := Some(if result.publishedAt.Some? then result.publishedAt.value else now),
            lastError := None, nextAttemptAt := None)
    else
      var failed := free.(attempts := row.attempts + 1, lastError := result.error);
      if failed.attempts >= policy.maxAttempts then failed.(status := DeadLetter, nextAttemptAt := None)
      else failed.(status := Retrying,
                   nextAttemptAt := Some(now + RetryDelay(policy, failed.attempts, jitter(row.id, failed.attempts))))
  }

  function RecordResults(rows: seq<OutboxRow>, results: seq<PublishResult>, policy: RetryPolicy, now: int, jitter: Jitter): (r: seq<OutboxRow>)
    ensures |r| == |rows|
  {
    if results == [] then rows
    else
      var before := RecordResults(rows, results[..|results| - 1], policy, now, jitter);
      var result := results[|results| - 1];
      var k := PlaceOf(before, result.id);
      if k == |before| then before else before[k := Recorded(before[k], result, policy, now, jitter)]
  }

  predicate Stale(row: OutboxRow, now: int, olderThan: int) {
    row.status.Publishing? && row.claimedAt.Some? && row.claimedAt.value < now - olderThan
  }

  function Released(row: OutboxRow, now: int, olderThan: int): OutboxRow {
    if Stale(row, now, olderThan) then
      row.(status := Retrying, claimedAt := None, claimedBy := None, nextAttemptAt := Some(now))
    else row
  }

  function ReleaseStale(rows: seq<OutboxRow>, now: int, olderThan: int): (r: seq<OutboxRow>) {
    seq(|rows|, i requires 0 <= i < |rows| => Released(rows[i], now, olderThan))
  }

  function Revived(row: OutboxRow, now: int): OutboxRow {
    if row.status.DeadLetter? then
      row.(status := Retrying, nextAttemptAt := Some(now), lastError := None, claimedAt := None, claimedBy := None)
    else row
  }

  function RetryDeadLetters(rows: seq<OutboxRow>, now: int): seq<OutboxRow> {
    seq(|rows|, i requires 0 <= i < |rows| => Revived(rows[i], now))
  }

  function IsStale(now: int, olderThan: int): OutboxRow -> bool {
    (row: OutboxRow) => Stale(row, now, olderThan)
  }

  function IsDead(): OutboxRow -> bool {
    (row: OutboxRow) => row.status.DeadLetter?
  }

  lemma CountOneMore(keep: OutboxRow -> bool, rows: seq<OutboxRow>, i: nat)
    requires i < |rows|
    ensures |Filter(keep, rows[..i + 1])| == |Filter(keep, rows[..i])| + if keep(rows[i]) then 1 else 0
  {
    assert rows[..i + 1] == rows[..i] + [rows[i]];
    FilterAppend(keep, rows[..i], [rows[i]]);
    FilterOne(keep, rows[i]);
  }

  // The store

  class OutboxStore {
    var rows: seq<OutboxRow>
    const policy: RetryPolicy

    constructor (policy: RetryPolicy)
      ensures rows == [] && this.policy == policy
    {
      rows, this.policy := [], policy;
    }

    method Add(id: int, message: Message, now: int)
      modifies this
      ensures rows == old(rows) + [NewRow(id, message, now)]
    {
      rows := rows + [NewRow(id, message, now)];
    }

    method ClaimPendingRows(workerId: string, now: int, limit: nat) returns (messages: seq<PendingMessage>)
      modifies this
      ensures Claimed(rows, messages) == ClaimPending(old(rows), now, workerId, limit)
    {
      messages := [];
      var left := limit;
      while left > 0
        invariant ClaimPending(old(rows), now, workerId, limit)
               == Claimed(ClaimPending(rows, now, workerId, left).rows, messages + ClaimPending(rows, now, workerId, left).messages)
      {
        var k := Oldest(rows, now);
        if k == |rows| {
          break;
        }
        ghost var rest := ClaimPending(rows[k := Claim(rows[k], now, workerId)], now, workerId, left - 1).messages;
        assert messages + ([PendingOf(rows[k])] + rest) == messages + [PendingOf(rows[k])] + rest;
        messages := messages + [PendingOf(rows[k])];
        rows := rows[k := Claim(rows[k], now, workerId)];
        left := left - 1;
      }
      assert messages + [] == messages;
    }

    method RecordPublishResults(results: seq<PublishResult>, now: int, jitter: Jitter)
      modifies this
      ensures rows == RecordResults(old(rows), results, policy, now, jitter)
    {
      for i := 0 to |results|
        invariant rows == RecordResults(old(rows), results[..i], policy, now, jitter)
      {
        assert results[..i + 1][..i] == results[..i];
        var result := results[i];
        var k := PlaceOf(rows, result.id);
        if k == |rows| {
          continue;
        }
        var row := rows[k].(claimedAt := None, claimedBy := None);
        if result.published {
          row := row.(status := Published, publishedAt := Some(if result.publishedAt.Some? then result.publishedAt.value else now),
                      lastError := None, nextAttemptAt := None);
          rows := rows[k := row];
          continue;
        }
        row := row.(attempts := row.attempts + 1, lastError := result.error);
        if row.attempts >= policy.maxAttempts {
          row := row.(status := DeadLetter, nextAttemptAt := None);
        } else {
          row := row.(status := Retrying,
                      nextAttemptAt := Some(now + RetryDelay(policy, row.attempts, jitter(row.id, row.attempts))));
        }
        rows := rows[k := row];
      }
      assert results[..|results|] == results;
    }

    method ReleaseStalePublishing(now: int, olderThan: int) returns (count: nat)
      modifies this
      ensures rows == ReleaseStale(old(rows), now, olderThan)
      ensures count == |Filter(IsStale(now, olderThan), old(rows))|
    {
      count := 0;
      for i := 0 to |rows|
        invariant |rows| == |old(rows)| && count == |Filter(IsStale(now, olderThan), old(rows)[..i])|
        invariant forall k :: 0 <= k < i ==> rows[k] == Released(old(rows)[k], now, olderThan)
        invariant forall k :: i <= k < |rows| ==> rows[k] == old(rows)[k]
      {
        CountOneMore(IsStale(now, olderThan), old(rows), i);
        if Stale(rows[i], now, olderThan) {
          rows := rows[i := rows[i].(status := Retrying, claimedAt := None, claimedBy := None, nextAttemptAt := Some(now))];
          count := count + 1;
        }
      }
      assert old(rows)[..|rows|] == old(rows);
    }

    method RetryAllDeadLetters(now: int) returns (count: nat)
      modifies this
      ensures rows == RetryDeadLetters(old(rows), now)
      ensures count == |Filter(IsDead(), old(rows))|
    {
      count := 0;
      for i := 0 to |rows|
        invariant |rows| == |old(rows)| && count == |Filter(IsDead(), old(rows)[..i])|
        invariant forall k :: 0 <= k < i ==> rows[k] == Revived(old(rows)[k], now)
        invariant forall k :: i <= k < |rows| ==> rows[k] == old(rows)[k]
      {
        CountOneMore(IsDead(), old(rows), i);
        if rows[i].status.DeadLetter? {
          rows := rows[i := rows[i].(status := Retrying, nextAttemptAt := Some(now), lastError := None, claimedAt := None, claimedBy := None)];
          count := count + 1;
        }
      }
      assert old(rows)[..|rows|] == old(rows);
    }
  }

  // Publishing

  /** An attempt to hand a message to the broker; one that raised may have reached the broker all the same. */
  datatype PublishEvent = PublishEvent(id: int, message: Message, acknowledged: bool)

  /** The broker's answers: acknowledged at an instant, or the name of the exception that was raised. */
  datatype BrokerAnswer = Acknowledged(at: int) | PublishRaised(error: string)

  function ResultFor(message: PendingMessage, answer: BrokerAnswer): PublishResult {
    match answer
    case Acknowledged(at) => PublishResult(message.id, true, Some(at), None)
    case PublishRaised(error) => PublishResult(message.id, false, None, Some(error))
  }

  type Broker = (seq<PublishEvent>, PendingMessage) -> BrokerAnswer

  datatype Publication = Publication(results: seq<PublishResult>, log: seq<PublishEvent>)

  function PublishOne(p: Publication, message: PendingMessage, answer: BrokerAnswer): Publication {
    Publication(p.results + [ResultFor(message, answer)],
                p.log + [PublishEvent(message.id, message.message, answer.Acknowledged?)])
  }

  function PublishAll(messages: seq<PendingMessage>, broker: Broker, log: seq<PublishEvent>): Publication {
    if messages == [] then Publication([], log)
    else
      var before, last := PublishAll(messages[..|messages| - 1], broker, log), messages[|messages| - 1];
      PublishOne(before, last, broker(before.log, last))
  }

  /** One event for each message, in order, and one result for each, acknowledged exactly when the broker did. */
  ghost predicate PublishedEach(messages: seq<PendingMessage>, log: seq<PublishEvent>, p: Publication) {
    && |p.results| == |messages|
    && |p.log| == |log| + |messages|
    && log <= p.log
    && forall i :: 0 <= i < |messages| ==>
         && p.results[i].id == messages[i].id
         && p.results[i].publishedAt.Some? == p.results[i].error.None? == p.results[i].published
         && p.log[|log| + i] == PublishEvent(messages[i].id, messages[i].message, p.results[i].published)
  }

  lemma {:induction false} PublishesEach(messages: seq<PendingMessage>, broker: Broker, log: seq<PublishEvent>)
    ensures PublishedEach(messages, log, PublishAll(messages, broker, log))
  {
    if messages != [] {
      PublishesEach(messages[..|messages| - 1], broker, log);
    }
  }

  method PublishPending(messages: seq<PendingMessage>, broker: Broker, log: seq<PublishEvent>)
    returns (results: seq<PublishResult>, after: seq<PublishEvent>)
    ensures Publication(results, after) == PublishAll(messages, broker, log)
    ensures PublishedEach(messages, log, Publication(results, after))
  {
    PublishesEach(messages, broker, log);
    results, after := [], log;
    for i := 0 to |messages|
      invariant Publication(results, after) == PublishAll(messages[..i], broker, log)
    {
      assert messages[..i + 1][..i] == messages[..i];
      var answer := broker(after, messages[i]);
      results := results + [ResultFor(messages[i], answer)];
      after := after + [PublishEvent(messages[i].id, messages[i].message, answer.Acknowledged?)];
    }
    assert messages[..|messages|] == messages;
  }
}
