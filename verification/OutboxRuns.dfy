/**
 The outbox of one sequential worker that may crash at any point: what every step keeps.
 */
module OutboxRuns {
  import opened Arithmetic
  import opened Domain
  import opened Store
  import opened Outbox

  /** The rows, what the worker holds in memory, and what was ever handed to the broker. */
  datatype OutboxState = OutboxState(
    rows: seq<OutboxRow>,
    inHand: seq<PendingMessage>,
    results: seq<PublishResult>,
    log: seq<PublishEvent>)

  datatype OutboxStep =
    | Enqueue(ids: seq<int>, messages: seq<Message>, at: int)
    | Release(now: int, olderThan: int)
    | ClaimBatch(now: int, workerId: string, limit: nat)
    | PublishNext(answer: BrokerAnswer)
    | RecordBatch(now: int, jitter: Jitter)
    | Crash
    | ReviveDead(now: int)

  function NewRows(ids: seq<int>, messages: seq<Message>, now: int): seq<OutboxRow>
    requires |ids| == |messages|
  {
    seq(|ids|, i requires 0 <= i < |ids| => NewRow(ids[i], messages[i], now))
  }

  /** One worker works on one batch at a time: it releases and claims with empty hands, and records a published batch. */
  ghost predicate Enabled(st: OutboxState, step: OutboxStep) {
    match step
    case Enqueue(ids, messages, _) =>
      && |ids| == |messages|
      && (forall i, j :: 0 <= i < j < |ids| ==> ids[i] != ids[j])
      && (forall i, j :: 0 <= i < |ids| && 0 <= j < |st.rows| ==> ids[i] != st.rows[j].id)
    case Release(_, _) => st.inHand == []
    case ClaimBatch(_, _, _) => st.inHand == []
    case PublishNext(_) => |st.results| < |st.inHand|
    case RecordBatch(_, _) => |st.results| == |st.inHand|
    case Crash => true
    case ReviveDead(_) => true
  }

  function Take(policy: RetryPolicy, st: OutboxState, step: OutboxStep): OutboxState {
    match step
    case Enqueue(ids, messages, now) => if |ids| == |messages| then st.(rows := st.rows + NewRows(ids, messages, now)) else st
    case Release(now, olderThan) => st.(rows := ReleaseStale(st.rows, now, olderThan))
    case ClaimBatch(now, workerId, limit) =>
      var claimed := ClaimPending(st.rows, now, workerId, limit);
      st.(rows := claimed.rows, inHand := claimed.messages, results := [])
    case PublishNext(answer) =>
      if |st.results| < |st.inHand| then
        var p := PublishOne(Publication(st.results, st.log), st.inHand[|st.results|], answer);
        st.(results := p.results, log := p.log)
      else st
    case RecordBatch(now, jitter) =>
      st.(rows := RecordResults(st.rows, st.results, policy, now, jitter), inHand := [], results := [])
    case Crash => st.(inHand := [], results := [])
    case ReviveDead(now) => st.(rows := RetryDeadLetters(st.rows, now))
  }

  const EmptyOutbox := OutboxState([], [], [], [])

  function RunSteps(policy: RetryPolicy, st: OutboxState, steps: seq<OutboxStep>): OutboxState {
    if steps == [] then st
    else Take(policy, RunSteps(policy, st, steps[..|steps| - 1]), steps[|steps| - 1])
  }

  ghost predicate AllEnabled(policy: RetryPolicy, st: OutboxState, steps: seq<OutboxStep>) {
    forall i :: 0 <= i < |steps| ==> Enabled(RunSteps(policy, st, steps[..i]), steps[i])
  }

  /** The publishing of a batch as steps of the worker, with the broker's answers. */
  function PublishSteps(messages: seq<PendingMessage>, broker: Broker, log: seq<PublishEvent>): (r: seq<OutboxStep>)
    ensures |r| == |messages|
  {
    if messages == [] then []
    else
      var n := |messages| - 1;
      PublishSteps(messages[..n], broker, log) + [PublishNext(broker(PublishAll(messages[..n], broker, log).log, messages[n]))]
  }

  /** Publishing the first messages of the batch in hand is taking that many publishing steps, each of them enabled. */
  lemma {:induction false} PublishingIsStepwise(policy: RetryPolicy, st: OutboxState, broker: Broker, n: nat)
    requires st.results == [] && n <= |st.inHand|
    ensures var p := PublishAll(st.inHand[..n], broker, st.log);
            var steps := PublishSteps(st.inHand[..n], broker, st.log);
            && AllEnabled(policy, st, steps)
            && RunSteps(policy, st, steps) == st.(results := p.results, log := p.log)
  {
    hide RunSteps, Take, Enabled, PublishAll, PublishSteps;
    if n == 0 {
      NoPublishing(policy, st, broker);
    } else {
      var m := n - 1;
      var earlier := PublishSteps(st.inHand[..m], broker, st.log);
      var p := PublishAll(st.inHand[..m], broker, st.log);
      var step := PublishNext(broker(p.log, st.inHand[m]));
      PublishingIsStepwise(policy, st, broker, m);
      PublishesEach(st.inHand[..m], broker, st.log);
      PublishUnfolds(st.inHand, broker, st.log, m);
      OneStepMore(policy, st, earlier, step);
      PublishStep(policy, st.(results := p.results, log := p.log), broker);
    }
  }

  lemma NoPublishing(policy: RetryPolicy, st: OutboxState, broker: Broker)
    requires st.results == []
    ensures var p := PublishAll(st.inHand[..0], broker, st.log);
            var steps := PublishSteps(st.inHand[..0], broker, st.log);
            AllEnabled(policy, st, steps) && RunSteps(policy, st, steps) == st.(results := p.results, log := p.log)
  {
  }

  lemma PublishUnfolds(messages: seq<PendingMessage>, broker: Broker, log: seq<PublishEvent>, m: nat)
    requires m < |messages|
    ensures var p := PublishAll(messages[..m], broker, log);
            && PublishAll(messages[..m + 1], broker, log) == PublishOne(p, messages[m], broker(p.log, messages[m]))
            && PublishSteps(messages[..m + 1], broker, log) ==
               PublishSteps(messages[..m], broker, log) + [PublishNext(broker(p.log, messages[m]))]
  {
    assert messages[..m + 1][..m] == messages[..m];
  }

  lemma OneStepMore(policy: RetryPolicy, st: OutboxState, earlier: seq<OutboxStep>, step: OutboxStep)
    ensures RunSteps(policy, st, earlier + [step]) == Take(policy, RunSteps(policy, st, earlier), step)
    ensures AllEnabled(policy, st, earlier) && Enabled(RunSteps(policy, st, earlier), step) ==> AllEnabled(policy, st, earlier + [step])
  {
    hide Take, Enabled;
    var steps := earlier + [step];
    assert steps[..|steps| - 1] == earlier;
    if AllEnabled(policy, st, earlier) && Enabled(RunSteps(policy, st, earlier), step) {
      forall i | 0 <= i < |steps|
        ensures Enabled(RunSteps(policy, st, steps[..i]), steps[i])
      {
        if i < |earlier| {
          assert steps[..i] == earlier[..i] && steps[i] == earlier[i];
        }
      }
    }
  }

  lemma PublishStep(policy: RetryPolicy, st: OutboxState, broker: Broker)
    requires |st.results| < |st.inHand|
    ensures var m := st.inHand[|st.results|];
            var step := PublishNext(broker(st.log, m));
            var p := PublishOne(Publication(st.results, st.log), m, broker(st.log, m));
            Enabled(st, step) && Take(policy, st, step) == st.(results := p.results, log := p.log)
  {
  }

  // Claiming takes the oldest rows

  /** Which rows a claim took. */
  ghost predicate Taken(before: seq<OutboxRow>, after: seq<OutboxRow>, i: nat)
    requires i < |before| && i < |after|
  {
    after[i] != before[i]
  }

  ghost predicate ClaimShape(rows: seq<OutboxRow>, now: int, workerId: string, limit: nat, c: Claimed) {
    && |c.rows| == |rows|
    && |c.messages| <= limit
    && (forall i :: 0 <= i < |rows| ==>
          c.rows[i] == rows[i] || (Claimable(rows[i], now) && c.rows[i] == Claim(rows[i], now, workerId)))
    && (forall m :: m in c.messages ==> exists i :: 0 <= i < |rows| && Taken(rows, c.rows, i) && m == PendingOf(rows[i]))
    && (forall i :: 0 <= i < |rows| && Taken(rows, c.rows, i) ==> PendingOf(rows[i]) in c.messages)
    && (forall j, k :: 0 <= j < k < |c.messages| ==> c.messages[j].id != c.messages[k].id)
  }

  lemma {:induction false} ClaimTakes(rows: seq<OutboxRow>, now: int, workerId: string, limit: nat)
    requires DistinctIds(rows)
    ensures ClaimShape(rows, now, workerId, limit, ClaimPending(rows, now, workerId, limit))
    decreases limit
  {
    var k := Oldest(rows, now);
    if limit > 0 && k < |rows| {
      hide Claimable, Oldest;
      var next := rows[k := Claim(rows[k], now, workerId)];
      assert DistinctIds(next);
      ClaimTakes(next, now, workerId, limit - 1);
      ClaimOneMore(rows, k, now, workerId, limit, ClaimPending(next, now, workerId, limit - 1));
    }
  }

  lemma ClaimOneMore(rows: seq<OutboxRow>, k: nat, now: int, workerId: string, limit: nat, rest: Claimed)
    requires DistinctIds(rows) && k < |rows| && Claimable(rows[k], now) && limit > 0
    requires ClaimShape(rows[k := Claim(rows[k], now, workerId)], now, workerId, limit - 1, rest)
    ensures ClaimShape(rows, now, workerId, limit, Claimed(rest.rows, [PendingOf(rows[k])] + rest.messages))
  {
    var next := rows[k := Claim(rows[k], now, workerId)];
    var messages := [PendingOf(rows[k])] + rest.messages;
    assert Taken(rows, rest.rows, k);
    forall m | m in messages
      ensures exists i :: 0 <= i < |rows| && Taken(rows, rest.rows, i) && m == PendingOf(rows[i])
      ensures m in rest.messages ==> m.id != rows[k].id
    {
      if m in rest.messages {
        var i :| 0 <= i < |next| && Taken(next, rest.rows, i) && m == PendingOf(next[i]);
        assert i != k;
        assert Taken(rows, rest.rows, i);
      }
    }
    forall i | 0 <= i < |rows| && Taken(rows, rest.rows, i)
      ensures PendingOf(rows[i]) in messages
    {
      if i != k {
        assert Taken(next, rest.rows, i);
      }
    }
  }

  /** A row that could have been claimed and was not is younger than every claimed one, and the batch is full. */
  lemma {:induction false} ClaimTakesOldest(rows: seq<OutboxRow>, now: int, workerId: string, limit: nat, left: nat)
    requires DistinctIds(rows) && left < |rows| && Claimable(rows[left], now)
    requires ClaimPending(rows, now, workerId, limit).rows[left] == rows[left]
    ensures |ClaimPending(rows, now, workerId, limit).messages| == limit
    ensures forall i :: 0 <= i < |rows| && ClaimPending(rows, now, workerId, limit).rows[i] != rows[i] ==> Older(rows[i], rows[left])
    decreases limit
  {
    hide Claimable, Oldest, Older, DistinctIds, ClaimPending;
    var k := Oldest(rows, now);
    ClaimUnfolds(rows, now, workerId, limit);
    OldestFirst(rows, now, left);
    if limit > 0 {
      var next := rows[k := Claim(rows[k], now, workerId)];
      StillDistinct(rows, k, Claim(rows[k], now, workerId));
      ClaimedStays(next, now, workerId, limit - 1, k);
      ClaimableIsFree(rows[left], now);
      ClaimTakesOldest(next, now, workerId, limit - 1, left);
    }
  }

  lemma ClaimUnfolds(rows: seq<OutboxRow>, now: int, workerId: string, limit: nat)
    ensures ClaimPending(rows, now, workerId, limit) ==
            var k := Oldest(rows, now);
            if limit == 0 || k == |rows| then Claimed(rows, [])
            else
              var rest := ClaimPending(rows[k := Claim(rows[k], now, workerId)], now, workerId, limit - 1);
              Claimed(rest.rows, [PendingOf(rows[k])] + rest.messages)
  {
  }

  lemma ClaimableIsFree(row: OutboxRow, now: int)
    requires Claimable(row, now)
    ensures !row.status.Publishing?
  {
  }

  lemma StillDistinct(rows: seq<OutboxRow>, k: nat, row: OutboxRow)
    requires DistinctIds(rows) && k < |rows| && row.id == rows[k].id
    ensures DistinctIds(rows[k := row])
  {
  }

  lemma OldestFirst(rows: seq<OutboxRow>, now: int, left: nat)
    requires DistinctIds(rows) && left < |rows| && Claimable(rows[left], now)
    ensures Oldest(rows, now) < |rows|
    ensures Oldest(rows, now) != left ==> Older(rows[Oldest(rows, now)], rows[left])
  {
    var k := Oldest(rows, now);
    assert k != left ==> rows[k].id != rows[left].id;
  }

  /** A row that is being published is not claimed again. */
  lemma ClaimedStays(rows: seq<OutboxRow>, now: int, workerId: string, limit: nat, k: nat)
    requires DistinctIds(rows) && k < |rows| && rows[k].status.Publishing?
    ensures ClaimPending(rows, now, workerId, limit).rows[k] == rows[k]
  {
    ClaimTakes(rows, now, workerId, limit);
  }

  /** The row waits for nothing but a worker. */
  predicate Due(row: OutboxRow, now: int) {
    && (row.status == Pending || row.status == Retrying)
    && (row.nextAttemptAt == None || row.nextAttemptAt.value <= now)
  }

  /**
   A claim on its rows: it takes due rows only, each into publishing under the worker's name; a due row that it leaves was
   created later than every row it takes, or together with it under a greater id, and then it has taken the limit.
   */
  lemma ClaimOnRows(rows: seq<OutboxRow>, now: int, workerId: string, limit: nat)
    requires DistinctIds(rows)
    ensures var c := ClaimPending(rows, now, workerId, limit);
            forall i :: 0 <= i < |rows| ==>
              c.rows[i] == rows[i]
              || (Due(rows[i], now)
                  && c.rows[i] == rows[i].(status := Publishing, claimedAt := Some(now), claimedBy := Some(workerId))
                  && PendingMessage(rows[i].id, rows[i].message, rows[i].attempts) in c.messages)
    ensures var c := ClaimPending(rows, now, workerId, limit);
            forall i, left :: 0 <= i < |rows| && 0 <= left < |rows| && c.rows[i] != rows[i] && c.rows[left] == rows[left] && Due(rows[left], now) ==>
              && |c.messages| == limit
              && (rows[i].createdAt < rows[left].createdAt || (rows[i].createdAt == rows[left].createdAt && rows[i].id < rows[left].id))
    ensures var c := ClaimPending(rows, now, workerId, limit);
            forall left :: 0 <= left < |rows| && c.rows[left] == rows[left] && Due(rows[left], now) ==> |c.messages| == limit
  {
    ClaimTakes(rows, now, workerId, limit);
    hide ClaimPending;
    forall left: nat | left < |rows| && ClaimPending(rows, now, workerId, limit).rows[left] == rows[left] && Due(rows[left], now)
      ensures |ClaimPending(rows, now, workerId, limit).messages| == limit
      ensures forall i :: 0 <= i < |rows| && ClaimPending(rows, now, workerId, limit).rows[i] != rows[i] ==> Older(rows[i], rows[left])
    {
      ClaimTakesOldest(rows, now, workerId, limit, left);
    }
  }

  /** A message can be claimed from the instant it was added at, and a dead letter from the instant it is revived at. */
  lemma NewRowsAreDue(id: int, message: Message, now: int, row: OutboxRow)
    ensures Due(NewRow(id, message, now), now) && NewRow(id, message, now).message == message && NewRow(id, message, now).createdAt == now
    ensures row.status == DeadLetter ==> Due(Revived(row, now), now) && Revived(row, now).attempts == row.attempts
    ensures row.status != DeadLetter ==> Revived(row, now) == row
  {
  }

  // The invariant

  /** The message was handed to the broker and acknowledged. */
  ghost predicate Acked(log: seq<PublishEvent>, id: int, message: Message) {
    PublishEvent(id, message, true) in log
  }

  ghost predicate RowOk(row: OutboxRow, policy: RetryPolicy, log: seq<PublishEvent>) {
    && (row.status.Publishing? <==> row.claimedAt.Some?)
    && (row.status.Publishing? <==> row.claimedBy.Some?)
    && (row.status.Published? ==> row.publishedAt.Some? && Acked(log, row.id, row.message))
    && (row.status.DeadLetter? ==> row.attempts >= policy.maxAttempts && row.nextAttemptAt.None?)
    && (row.status.Pending? || row.status.Retrying? ==> row.nextAttemptAt.Some?)
  }

  /** A row of the table is being published as this message. */
  ghost predicate Holds(rows: seq<OutboxRow>, m: PendingMessage) {
    exists i :: 0 <= i < |rows| && rows[i].status.Publishing? && PendingOf(rows[i]) == m
  }

  ghost predicate ResultsOk(st: OutboxState) {
    && |st.results| <= |st.inHand|
    && forall k :: 0 <= k < |st.results| ==>
         && st.results[k].id == st.inHand[k].id
         && (st.results[k].published ==> Acked(st.log, st.inHand[k].id, st.inHand[k].message))
  }

  ghost predicate HandOk(st: OutboxState) {
    && (forall j, k :: 0 <= j < k < |st.inHand| ==> st.inHand[j].id != st.inHand[k].id)
    && (forall m :: m in st.inHand ==> Holds(st.rows, m))
    && ResultsOk(st)
  }

  ghost predicate Stored(rows: seq<OutboxRow>, e: PublishEvent) {
    exists i :: 0 <= i < |rows| && rows[i].id == e.id && rows[i].message == e.message
  }

  /** What every step of the sequential worker keeps, crashes included. */
  ghost predicate OutboxOk(policy: RetryPolicy, st: OutboxState) {
    && DistinctIds(st.rows)
    && (forall i :: 0 <= i < |st.rows| ==> RowOk(st.rows[i], policy, st.log))
    && HandOk(st)
    && (forall e :: e in st.log ==> Stored(st.rows, e))
  }

  /** What may become of one row: its payload stays, a published row is final, attempts only grow. */
  ghost predicate RowEvolves(policy: RetryPolicy, before: OutboxRow, after: OutboxRow) {
    && after.id == before.id && after.message == before.message && after.createdAt == before.createdAt
    && (before.status.Published? ==> after == before)
    && before.attempts <= after.attempts <= before.attempts + 1
    && (after.attempts > before.attempts ==>
        && before.status.Publishing?
        && (after.status.Retrying? || after.status.DeadLetter?)
        && (after.status.Retrying? <==> after.attempts < policy.maxAttempts))
    && (after.status.Published? ==> before.status.Published? || before.status.Publishing?)
  }

  ghost predicate RowsEvolve(policy: RetryPolicy, before: seq<OutboxRow>, after: seq<OutboxRow>) {
    && |before| <= |after|
    && forall i :: 0 <= i < |before| ==> RowEvolves(policy, before[i], after[i])
  }

  lemma PlaceIs(rows: seq<OutboxRow>, i: nat)
    requires DistinctIds(rows) && i < |rows|
    ensures PlaceOf(rows, rows[i].id) == i
  {
    var k := PlaceOf(rows, rows[i].id);
    assert rows[k].id == rows[i].id;
  }

  /** The result for a row, if the batch has one. */
  function ResultOf(results: seq<PublishResult>, id: int): (r: Option<PublishResult>)
    ensures r.Some? ==> r.value.id == id && r.value in results
  {
    if results == [] then None
    else if results[|results| - 1].id == id then Some(results[|results| - 1])
    else ResultOf(results[..|results| - 1], id)
  }

  ghost predicate DistinctResults(results: seq<PublishResult>) {
    forall i, j :: 0 <= i < j < |results| ==> results[i].id != results[j].id
  }

  /** Recording a batch treats each row by its own result. */
  lemma {:induction false} RecordedAt(rows: seq<OutboxRow>, results: seq<PublishResult>, policy: RetryPolicy, now: int, jitter: Jitter, i: nat)
    requires DistinctIds(rows) && DistinctResults(results) && i < |rows|
    ensures DistinctIds(RecordResults(rows, results, policy, now, jitter))
    ensures RecordResults(rows, results, policy, now, jitter)[i] ==
            if ResultOf(results, rows[i].id).None? then rows[i]
            else Recorded(rows[i], ResultOf(results, rows[i].id).value, policy, now, jitter)
  {
    if results != [] {
      hide Recorded;
      var earlier, last := results[..|results| - 1], results[|results| - 1];
      forall k: nat | k < |rows|
        ensures RecordResults(rows, earlier, policy, now, jitter)[k].id == rows[k].id
        ensures DistinctIds(RecordResults(rows, earlier, policy, now, jitter))
      {
        RecordedAt(rows, earlier, policy, now, jitter, k);
      }
      RecordedAt(rows, earlier, policy, now, jitter, i);
      var before := RecordResults(rows, earlier, policy, now, jitter);
      if ResultOf(earlier, rows[i].id).Some? {
        assert ResultOf(earlier, rows[i].id).value.id != last.id;
      }
      PlaceIs(before, i);
    }
  }

  lemma HandRow(st: OutboxState, m: PendingMessage, i: nat)
    requires DistinctIds(st.rows) && Holds(st.rows, m) && i < |st.rows| && st.rows[i].id == m.id
    ensures st.rows[i].status.Publishing? && PendingOf(st.rows[i]) == m
  {
    var k :| 0 <= k < |st.rows| && st.rows[k].status.Publishing? && PendingOf(st.rows[k]) == m;
    assert k == i;
  }

  lemma RowsKeepStored(policy: RetryPolicy, before: seq<OutboxRow>, after: seq<OutboxRow>, log: seq<PublishEvent>)
    requires RowsEvolve(policy, before, after) && forall e :: e in log ==> Stored(before, e)
    ensures forall e :: e in log ==> Stored(after, e)
  {
    forall e | e in log
      ensures Stored(after, e)
    {
      var i :| 0 <= i < |before| && before[i].id == e.id && before[i].message == e.message;
      assert RowEvolves(policy, before[i], after[i]);
    }
  }

  /** A batch has one result for each message, and messages have distinct ids. */
  lemma ResultsAreDistinct(st: OutboxState)
    requires HandOk(st)
    ensures DistinctResults(st.results)
  {
    forall i, j | 0 <= i < j < |st.results|
      ensures st.results[i].id != st.results[j].id
    {
      assert st.inHand[i].id != st.inHand[j].id;
    }
  }

  /** Recording leaves a row alone or finds it being published, with an acknowledgement if it becomes published. */
  lemma RecordedRow(policy: RetryPolicy, st: OutboxState, now: int, jitter: Jitter, i: nat)
    requires OutboxOk(policy, st) && |st.results| == |st.inHand| && i < |st.rows|
    ensures var after := RecordResults(st.rows, st.results, policy, now, jitter);
            || after[i] == st.rows[i]
            || exists r :: st.rows[i].status.Publishing? && after[i] == Recorded(st.rows[i], r, policy, now, jitter)
                 && (r.published ==> Acked(st.log, st.rows[i].id, st.rows[i].message))
  {
    hide Recorded;
    ResultsAreDistinct(st);
    RecordedAt(st.rows, st.results, policy, now, jitter, i);
    var r := ResultOf(st.results, st.rows[i].id);
    if r.Some? {
      var k :| 0 <= k < |st.results| && st.results[k] == r.value;
      assert st.inHand[k] in st.inHand;
      HandRow(st, st.inHand[k], i);
    }
  }

  lemma RecordKeeps(policy: RetryPolicy, st: OutboxState, now: int, jitter: Jitter)
    requires OutboxOk(policy, st) && |st.results| == |st.inHand|
    ensures OutboxOk(policy, Take(policy, st, RecordBatch(now, jitter)))
    ensures RowsEvolve(policy, st.rows, Take(policy, st, RecordBatch(now, jitter)).rows)
  {
    var after := RecordResults(st.rows, st.results, policy, now, jitter);
    ResultsAreDistinct(st);
    forall i: nat | i < |st.rows|
      ensures RowOk(after[i], policy, st.log) && RowEvolves(policy, st.rows[i], after[i])
    {
      RecordedRow(policy, st, now, jitter, i);
    }
    if st.rows != [] {
      RecordedAt(st.rows, st.results, policy, now, jitter, 0);
    }
    RowsKeepStored(policy, st.rows, after, st.log);
  }

  lemma ClaimKeeps(policy: RetryPolicy, st: OutboxState, now: int, workerId: string, limit: nat)
    requires OutboxOk(policy, st) && st.inHand == []
    ensures OutboxOk(policy, Take(policy, st, ClaimBatch(now, workerId, limit)))
    ensures RowsEvolve(policy, st.rows, Take(policy, st, ClaimBatch(now, workerId, limit)).rows)
  {
    ClaimTakes(st.rows, now, workerId, limit);
    var c := ClaimPending(st.rows, now, workerId, limit);
    forall m | m in c.messages
      ensures Holds(c.rows, m)
    {
      var i :| 0 <= i < |st.rows| && Taken(st.rows, c.rows, i) && m == PendingOf(st.rows[i]);
      assert PendingOf(c.rows[i]) == m;
    }
    assert RowsEvolve(policy, st.rows, c.rows);
    RowsKeepStored(policy, st.rows, c.rows, st.log);
  }

  lemma PublishKeeps(policy: RetryPolicy, st: OutboxState, answer: BrokerAnswer)
    requires OutboxOk(policy, st) && |st.results| < |st.inHand|
    ensures OutboxOk(policy, Take(policy, st, PublishNext(answer)))
  {
    var after := Take(policy, st, PublishNext(answer));
    var m := st.inHand[|st.results|];
    assert m in st.inHand;
    var e := PublishEvent(m.id, m.message, answer.Acknowledged?);
    assert Stored(st.rows, e);
    assert forall x :: x in st.log ==> x in after.log;
    assert e in after.log;
    forall x | x in after.log
      ensures Stored(after.rows, x)
    {
      if x != e {
        assert x in st.log;
      }
    }
  }

  lemma EnqueueKeeps(policy: RetryPolicy, st: OutboxState, ids: seq<int>, messages: seq<Message>, now: int)
    requires OutboxOk(policy, st) && Enabled(st, Enqueue(ids, messages, now))
    ensures OutboxOk(policy, Take(policy, st, Enqueue(ids, messages, now)))
    ensures RowsEvolve(policy, st.rows, Take(policy, st, Enqueue(ids, messages, now)).rows)
  {
    var after := Take(policy, st, Enqueue(ids, messages, now));
    assert forall i :: 0 <= i < |st.rows| ==> after.rows[i] == st.rows[i];
    forall m | m in st.inHand
      ensures Holds(after.rows, m)
    {
      var i :| 0 <= i < |st.rows| && st.rows[i].status.Publishing? && PendingOf(st.rows[i]) == m;
      assert PendingOf(after.rows[i]) == m;
    }
    RowsKeepStored(policy, st.rows, after.rows, st.log);
  }

  lemma ReleaseKeeps(policy: RetryPolicy, st: OutboxState, now: int, olderThan: int)
    requires OutboxOk(policy, st) && st.inHand == []
    ensures OutboxOk(policy, Take(policy, st, Release(now, olderThan)))
    ensures RowsEvolve(policy, st.rows, Take(policy, st, Release(now, olderThan)).rows)
  {
    RowsKeepStored(policy, st.rows, ReleaseStale(st.rows, now, olderThan), st.log);
  }

  lemma ReviveKeeps(policy: RetryPolicy, st: OutboxState, now: int)
    requires OutboxOk(policy, st)
    ensures OutboxOk(policy, Take(policy, st, ReviveDead(now)))
    ensures RowsEvolve(policy, st.rows, Take(policy, st, ReviveDead(now)).rows)
  {
    var after := RetryDeadLetters(st.rows, now);
    forall m | m in st.inHand
      ensures Holds(after, m)
    {
      var i :| 0 <= i < |st.rows| && st.rows[i].status.Publishing? && PendingOf(st.rows[i]) == m;
      assert after[i] == st.rows[i];
    }
    RowsKeepStored(policy, st.rows, after, st.log);
  }

  lemma RowsRest(policy: RetryPolicy, rows: seq<OutboxRow>)
    ensures RowsEvolve(policy, rows, rows)
  {
  }

  lemma StepKeeps(policy: RetryPolicy, st: OutboxState, step: OutboxStep)
    requires OutboxOk(policy, st) && Enabled(st, step)
    ensures OutboxOk(policy, Take(policy, st, step))
    ensures RowsEvolve(policy, st.rows, Take(policy, st, step).rows)
  {
    hide RowsEvolve, ClaimPending, RecordResults, Holds;
    match step {
      case Enqueue(ids, messages, now) => EnqueueKeeps(policy, st, ids, messages, now);
      case Release(now, olderThan) => ReleaseKeeps(policy, st, now, olderThan);
      case ClaimBatch(now, workerId, limit) => ClaimKeeps(policy, st, now, workerId, limit);
      case PublishNext(answer) =>
        PublishKeeps(policy, st, answer);
        RowsRest(policy, st.rows);
      case RecordBatch(now, jitter) => RecordKeeps(policy, st, now, jitter);
      case Crash =>
        RowsRest(policy, st.rows);
      case ReviveDead(now) => ReviveKeeps(policy, st, now);
    }
  }

  // Runs

  lemma EarlierEnabled(policy: RetryPolicy, st: OutboxState, steps: seq<OutboxStep>)
    requires steps != [] && AllEnabled(policy, st, steps)
    ensures AllEnabled(policy, st, steps[..|steps| - 1])
    ensures Enabled(RunSteps(policy, st, steps[..|steps| - 1]), steps[|steps| - 1])
  {
    var earlier := steps[..|steps| - 1];
    forall i | 0 <= i < |earlier|
      ensures Enabled(RunSteps(policy, st, earlier[..i]), earlier[i])
    {
      assert earlier[..i] == steps[..i];
    }
  }

  /** What a row is after any number of steps, compared with what it was. */
  ghost predicate Survives(before: OutboxRow, after: OutboxRow) {
    && after.id == before.id && after.message == before.message && after.createdAt == before.createdAt
    && before.attempts <= after.attempts
    && (before.status.Published? ==> after == before)
  }

  ghost predicate AllSurvive(before: seq<OutboxRow>, after: seq<OutboxRow>) {
    |before| <= |after| && forall i :: 0 <= i < |before| ==> Survives(before[i], after[i])
  }

  lemma SurvivesStep(policy: RetryPolicy, a: seq<OutboxRow>, b: seq<OutboxRow>, c: seq<OutboxRow>)
    requires AllSurvive(a, b) && RowsEvolve(policy, b, c)
    ensures AllSurvive(a, c)
  {
    forall i | 0 <= i < |a|
      ensures Survives(a[i], c[i])
    {
      assert RowEvolves(policy, b[i], c[i]);
    }
  }

  /**
   Over any run of the sequential worker, with crashes anywhere: no row is lost or changes its payload, published
   rows are final and were acknowledged, claim fields are set exactly while publishing, and dead letters have used
   up their attempts.
   */
  lemma {:induction false} OutboxRun(policy: RetryPolicy, st: OutboxState, steps: seq<OutboxStep>)
    requires OutboxOk(policy, st) && AllEnabled(policy, st, steps)
    ensures OutboxOk(policy, RunSteps(policy, st, steps))
    ensures AllSurvive(st.rows, RunSteps(policy, st, steps).rows)
  {
    hide OutboxOk, Take, Enabled, RowsEvolve;
    if steps != [] {
      var earlier := steps[..|steps| - 1];
      EarlierEnabled(policy, st, steps);
      OutboxRun(policy, st, earlier);
      StepKeeps(policy, RunSteps(policy, st, earlier), steps[|steps| - 1]);
      SurvivesStep(policy, st.rows, RunSteps(policy, st, earlier).rows, RunSteps(policy, st, steps).rows);
    }
  }

  /** An outbox that started empty. */
  lemma OutboxFromEmpty(policy: RetryPolicy, steps: seq<OutboxStep>)
    requires AllEnabled(policy, EmptyOutbox, steps)
    ensures OutboxOk(policy, RunSteps(policy, EmptyOutbox, steps))
  {
    assert OutboxOk(policy, EmptyOutbox);
    OutboxRun(policy, EmptyOutbox, steps);
  }

  ghost predicate WithinAttempts(policy: RetryPolicy, rows: seq<OutboxRow>) {
    forall i :: 0 <= i < |rows| ==>
      if rows[i].status.DeadLetter? then rows[i].attempts == policy.maxAttempts else rows[i].attempts < policy.maxAttempts
  }

  lemma StepKeepsAttempts(policy: RetryPolicy, st: OutboxState, step: OutboxStep)
    requires 1 <= policy.maxAttempts && OutboxOk(policy, st) && Enabled(st, step) && !step.ReviveDead?
    requires WithinAttempts(policy, st.rows)
    ensures WithinAttempts(policy, Take(policy, st, step).rows)
  {
    match step {
      case RecordBatch(now, jitter) =>
        RecordKeeps(policy, st, now, jitter);
        AttemptsWithin(policy, st, now, jitter);
      case ClaimBatch(now, workerId, limit) =>
        ClaimTakes(st.rows, now, workerId, limit);
      case _ =>
    }
  }

  lemma AttemptsWithin(policy: RetryPolicy, st: OutboxState, now: int, jitter: Jitter)
    requires OutboxOk(policy, st) && |st.results| == |st.inHand| && WithinAttempts(policy, st.rows)
    ensures WithinAttempts(policy, RecordResults(st.rows, st.results, policy, now, jitter))
  {
    var after := RecordResults(st.rows, st.results, policy, now, jitter);
    forall i: nat | i < |after|
      ensures if after[i].status.DeadLetter? then after[i].attempts == policy.maxAttempts else after[i].attempts < policy.maxAttempts
    {
      RecordedRow(policy, st, now, jitter, i);
    }
  }

  /** As long as no dead letter is retried, no row is attempted more often than allowed, and exactly the dead letters that often. */
  lemma {:induction false} AttemptsAreBounded(policy: RetryPolicy, steps: seq<OutboxStep>)
    requires 1 <= policy.maxAttempts && AllEnabled(policy, EmptyOutbox, steps)
    requires forall i :: 0 <= i < |steps| ==> !steps[i].ReviveDead?
    ensures WithinAttempts(policy, RunSteps(policy, EmptyOutbox, steps).rows)
  {
    if steps != [] {
      hide OutboxOk, Take, Enabled, WithinAttempts;
      var earlier := steps[..|steps| - 1];
      EarlierEnabled(policy, EmptyOutbox, steps);
      AttemptsAreBounded(policy, earlier);
      OutboxFromEmpty(policy, earlier);
      StepKeepsAttempts(policy, RunSteps(policy, EmptyOutbox, earlier), steps[|steps| - 1]);
    } else {
      assert RunSteps(policy, EmptyOutbox, steps).rows == [];
    }
  }

  /** A recorded failure uses up one attempt; the row waits its delay or, with none left, is a dead letter. */
  lemma FailureUsesAnAttempt(policy: RetryPolicy, row: OutboxRow, result: PublishResult, now: int, jitter: Jitter)
    requires JitterWithin(policy, jitter) && !result.published
    requires 0 <= policy.baseDelay <= policy.maxDelay && 0 <= policy.jitter
    ensures var after := Recorded(row, result, policy, now, jitter);
            && policy.maxAttempts - after.attempts == policy.maxAttempts - row.attempts - 1
            && (after.status.Retrying? <==> 0 < policy.maxAttempts - after.attempts)
            && (after.status.DeadLetter? <==> policy.maxAttempts - after.attempts <= 0)
            && (after.status.Retrying? ==>
                  after.nextAttemptAt.Some?
                  && now + policy.baseDelay * SECOND <= after.nextAttemptAt.value <= now + (policy.maxDelay + policy.jitter) * SECOND)
  {
    var attempts := row.attempts + 1;
    assert 0 <= jitter(row.id, attempts);
    Pow2Monotone(0, attempts - 1);
    ScaleMonotone(policy.baseDelay, 1, Pow2(attempts - 1));
  }

  /** A recorded success frees the row, at the instant the broker acknowledged it, without using an attempt. */
  lemma SuccessIsRecorded(policy: RetryPolicy, row: OutboxRow, result: PublishResult, now: int, jitter: Jitter)
    requires result.published
    ensures var after := Recorded(row, result, policy, now, jitter);
            && after.status == Published && after.attempts == row.attempts
            && after.claimedAt.None? && after.claimedBy.None? && after.nextAttemptAt.None? && after.lastError.None?
            && (result.publishedAt.Some? ==> after.publishedAt == result.publishedAt)
            && (result.publishedAt.None? ==> after.publishedAt == Some(now))
  {
  }

  /** Apart from the jitter the first failure waits for the base delay, and each further one twice as long until the maximum. */
  lemma RetryDelaysDouble(policy: RetryPolicy, failures: nat, jitter: int)
    requires 1 <= failures && 0 <= policy.baseDelay <= policy.maxDelay
    ensures RetryDelay(policy, 1, jitter) == policy.baseDelay * SECOND + jitter
    ensures var wait := RetryDelay(policy, failures, 0);
            RetryDelay(policy, failures + 1, jitter) ==
            (if 2 * wait <= policy.maxDelay * SECOND then 2 * wait else policy.maxDelay * SECOND) + jitter
  {
    DoubledProduct(policy.baseDelay, failures - 1);
    ScaledOnce(policy.baseDelay);
  }

  /** A row whose claim was lost in a crash can be claimed again as soon as it is released as stale. */
  lemma LostClaimIsReleased(policy: RetryPolicy, st: OutboxState, now: int, olderThan: int, i: nat)
    requires OutboxOk(policy, st) && st.inHand == [] && i < |st.rows| && st.rows[i].status.Publishing?
    ensures st.rows[i].claimedAt.Some?
    ensures Claimable(Take(policy, st, Release(now, olderThan)).rows[i], now) <==> st.rows[i].claimedAt.value + olderThan < now
  {
    assert RowOk(st.rows[i], policy, st.log);
  }
}
