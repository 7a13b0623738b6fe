/**
 What every call of the entrance worker keeps, wherever the bus makes it stop: the version
 watermarks, the attempt machine, verify-before-rewrite, isolation of slaves, and the cost in bus operations.
 */
module ProtocolSafety {
  import opened Domain
  import opened Registers
  import opened Planner
  import opened Protocol

  // Histories

  /** The number of bus operations in a history. */
  function BusOps(log: History): nat {
    if log == [] then 0
    else BusOps(log[..|log| - 1]) + if log[|log| - 1].Bus? then 1 else 0
  }

  lemma BusOpsAppend(log: History, e: Event)
    ensures BusOps(log + [e]) == BusOps(log) + if e.Bus? then 1 else 0
  {
    assert (log + [e])[..|log|] == log;
  }

  /** An event that a call for one room and version, on one slave, may leave behind. */
  ghost predicate OwnEvent(e: Event, slave: int, key: string, version: int) {
    match e
    case Delivered(_) => false
    case Bus(op) => op.slave == slave
    case WritePhase(plan) => plan.slave == slave && plan.roomKey == key && plan.version == version
    case Swept(plan, _) => plan.slave == slave && plan.roomKey == key && plan.version == version
  }

  ghost predicate OwnEvents(before: History, after: History, slave: int, key: string, version: int) {
    && before <= after
    && forall i :: |before| <= i < |after| ==> OwnEvent(after[i], slave, key, version)
  }

  lemma OwnEventsTransitive(a: History, b: History, c: History, slave: int, key: string, version: int)
    requires OwnEvents(a, b, slave, key, version) && OwnEvents(b, c, slave, key, version)
    ensures OwnEvents(a, c, slave, key, version)
  {
    forall i | |a| <= i < |c|
      ensures OwnEvent(c[i], slave, key, version)
    {
      if i < |b| {
        assert c[i] == b[i];
      }
    }
  }

  /** Only operations on the slave were added. */
  ghost predicate OnlyBus(before: History, after: History, slave: int) {
    && before <= after
    && forall i :: |before| <= i < |after| ==> after[i].Bus? && after[i].op.slave == slave
  }

  lemma OnlyBusTransitive(a: History, b: History, c: History, slave: int)
    requires OnlyBus(a, b, slave) && OnlyBus(b, c, slave)
    ensures OnlyBus(a, c, slave)
  {
    forall i | |a| <= i < |c|
      ensures c[i].Bus? && c[i].op.slave == slave
    {
      if i < |b| {
        assert c[i] == b[i];
      }
    }
  }

  lemma OnlyBusIsOwn(before: History, after: History, slave: int, key: string, version: int)
    requires OnlyBus(before, after, slave)
    ensures OwnEvents(before, after, slave, key, version)
  {
  }

  // Verify before rewrite

  ghost predicate IsWritePhase(e: Event, key: string, version: int) {
    e.WritePhase? && e.plan.roomKey == key && e.plan.version == version
  }

  /** A complete readback sweep that found the device in another state than planned. */
  ghost predicate IsMismatchSweep(e: Event, key: string, version: int) {
    e.Swept? && e.plan.roomKey == key && e.plan.version == version && CompareReadback(e.plan, e.observed) != []
  }

  /** A write phase of the version was entered and no mismatch was seen since. */
  ghost predicate Unverified(log: History, key: string, version: int) {
    if log == [] then false
    else
      var last := log[|log| - 1];
      if IsWritePhase(last, key, version) then true
      else if IsMismatchSweep(last, key, version) then false
      else Unverified(log[..|log| - 1], key, version)
  }

  lemma UnverifiedAppend(log: History, e: Event, key: string, version: int)
    ensures Unverified(log + [e], key, version) ==
            if IsWritePhase(e, key, version) then true
            else if IsMismatchSweep(e, key, version) then false
            else Unverified(log, key, version)
  {
    assert (log + [e])[..|log|] == log;
  }

  /** No write phase was entered while an earlier one of the same version was unverified. */
  ghost predicate NoBlindRewrite(log: History) {
    if log == [] then true
    else
      var before, last := log[..|log| - 1], log[|log| - 1];
      && NoBlindRewrite(before)
      && (last.WritePhase? ==> !Unverified(before, last.plan.roomKey, last.plan.version))
  }

  lemma NoBlindRewriteAppend(log: History, e: Event)
    ensures NoBlindRewrite(log + [e]) <==>
            NoBlindRewrite(log) && (e.WritePhase? ==> !Unverified(log, e.plan.roomKey, e.plan.version))
  {
    assert (log + [e])[..|log|] == log;
  }

  lemma {:induction false} UnverifiedLooksBack(log: History, key: string, version: int, i: nat)
    returns (k: nat)
    requires i < |log| && IsWritePhase(log[i], key, version) && !Unverified(log, key, version)
    ensures i < k < |log| && IsMismatchSweep(log[k], key, version)
  {
    if IsMismatchSweep(log[|log| - 1], key, version) {
      k := |log| - 1;
    } else {
      k := UnverifiedLooksBack(log[..|log| - 1], key, version, i);
    }
  }

  /** Between two write phases of one version stands a complete sweep that found a mismatch. */
  lemma {:induction false} RewriteIsVerified(log: History, key: string, version: int, i: nat, j: nat)
    returns (k: nat)
    requires NoBlindRewrite(log)
    requires i < j < |log| && IsWritePhase(log[i], key, version) && IsWritePhase(log[j], key, version)
    ensures i < k < j && IsMismatchSweep(log[k], key, version)
  {
    var before := log[..|log| - 1];
    if j == |log| - 1 {
      k := UnverifiedLooksBack(before, key, version, i);
    } else {
      k := RewriteIsVerified(before, key, version, i, j);
    }
  }

  // Honest sweeps

  /** Since the start, a read of the register was answered with the value. */
  ghost predicate ReadBack(env: Environment, start: nat, log: History, slave: int, address: int, value: int) {
    exists p :: start <= p < |log| && log[p] == Bus(Read(slave, address, 1)) && env.client(log[..p + 1]) == Ok([value])
  }

  lemma ReadBackLasts(env: Environment, start: nat, log: History, longer: History, slave: int, address: int, value: int)
    requires ReadBack(env, start, log, slave, address, value) && log <= longer
    ensures ReadBack(env, start, longer, slave, address, value)
  {
    var p :| start <= p < |log| && log[p] == Bus(Read(slave, address, 1)) && env.client(log[..p + 1]) == Ok([value]);
    assert longer[..p + 1] == log[..p + 1];
  }

  lemma ReadBackEarlier(env: Environment, start: nat, from: nat, log: History, slave: int, address: int, value: int)
    requires ReadBack(env, start, log, slave, address, value) && from <= start
    ensures ReadBack(env, from, log, slave, address, value)
  {
  }

  /** Every register the plan expects was read, and the bus answered what was observed. */
  ghost predicate Complete(env: Environment, start: nat, log: History, slave: int, expectations: seq<Expectation>,
                     observed: map<int, int>) {
    forall i :: 0 <= i < |expectations| ==>
      && expectations[i].address in observed
      && ReadBack(env, start, log, slave, expectations[i].address, observed[expectations[i].address])
  }

  /** The sweep was made by an unbroken run of bus operations at the end of the history. */
  ghost predicate SweptJustNow(env: Environment, log: History, plan: Plan, observed: map<int, int>) {
    exists start :: 0 <= start <= |log|
      && (forall i :: start <= i < |log| ==> log[i].Bus?)
      && Complete(env, start, log, plan.slave, plan.expectations, observed)
  }

  ghost predicate HonestSweeps(env: Environment, log: History) {
    if log == [] then true
    else
      var before, last := log[..|log| - 1], log[|log| - 1];
      HonestSweeps(env, before) && (last.Swept? ==> SweptJustNow(env, before, last.plan, last.observed))
  }

  lemma HonestSweepsAppend(env: Environment, log: History, e: Event)
    ensures HonestSweeps(env, log + [e]) <==>
            HonestSweeps(env, log) && (e.Swept? ==> SweptJustNow(env, log, e.plan, e.observed))
  {
    assert (log + [e])[..|log|] == log;
  }

  lemma {:induction false} SweepIsHonest(env: Environment, log: History, k: nat)
    requires HonestSweeps(env, log) && k < |log| && log[k].Swept?
    ensures SweptJustNow(env, log[..k], log[k].plan, log[k].observed)
  {
    if k == |log| - 1 {
    } else {
      SweepIsHonest(env, log[..|log| - 1], k);
      assert log[..|log| - 1][..k] == log[..k];
    }
  }

  // Frames of histories

  lemma {:induction false} OwnEventsFrame(before: History, after: History, slave: int, key: string, version: int,
                                          otherKey: string, otherVersion: int)
    requires OwnEvents(before, after, slave, key, version)
    requires key != otherKey || version != otherVersion
    ensures Unverified(after, otherKey, otherVersion) == Unverified(before, otherKey, otherVersion)
    decreases |after|
  {
    if |before| < |after| {
      var shorter := after[..|after| - 1];
      OwnEventsFrame(before, shorter, slave, key, version, otherKey, otherVersion);
    } else {
      assert before == after;
    }
  }

  lemma {:induction false} OnlyBusCount(before: History, after: History, slave: int)
    requires OnlyBus(before, after, slave)
    ensures BusOps(after) == BusOps(before) + |after| - |before|
    decreases |after|
  {
    if |before| < |after| {
      OnlyBusCount(before, after[..|after| - 1], slave);
    } else {
      assert before == after;
    }
  }

  /** What bus operations alone leave as it was. */
  lemma {:induction false} OnlyBusFrame(env: Environment, before: History, after: History, slave: int,
                                        key: string, version: int)
    requires OnlyBus(before, after, slave)
    ensures Unverified(after, key, version) == Unverified(before, key, version)
    ensures NoBlindRewrite(after) == NoBlindRewrite(before)
    ensures HonestSweeps(env, after) == HonestSweeps(env, before)
    decreases |after|
  {
    if |before| < |after| {
      OnlyBusFrame(env, before, after[..|after| - 1], slave, key, version);
    } else {
      assert before == after;
    }
  }

  // Costs

  /** n times m, by repeated addition. */
  function Times(n: nat, m: nat): nat {
    if n == 0 then 0 else Times(n - 1, m) + m
  }

  lemma {:induction false} TimesIsProduct(n: nat, m: nat)
    ensures Times(n, m) == n * m
  {
    if n > 0 {
      TimesIsProduct(n - 1, m);
      assert n * m == (n - 1) * m + m;
    }
  }

  lemma {:induction false} TimesMonotone(n: nat, m: nat, more: nat)
    requires m <= more
    ensures Times(n, m) <= Times(n, more)
  {
    if n > 0 {
      TimesMonotone(n - 1, m, more);
    }
  }

  lemma ThreeTimes(n: nat, m: nat)
    requires n <= 3
    ensures Times(n, m) <= 3 * m
  {
    TimesIsProduct(n, m);
    if n == 0 {
    } else if n == 1 {
    } else if n == 2 {
    } else {
      assert n == 3;
    }
  }

  /** A full readback sweeps at most three registers per attempt. */
  function ReadbackCost(s: Settings): nat {
    Times(s.readbackAttempts, 3 * s.operationAttempts)
  }

  lemma AtMostThree(expectations: nat, s: Settings)
    requires expectations <= 3
    ensures Times(s.readbackAttempts, Times(expectations, s.operationAttempts)) <= ReadbackCost(s)
  {
    ThreeTimes(expectations, s.operationAttempts);
    TimesMonotone(s.readbackAttempts, Times(expectations, s.operationAttempts), 3 * s.operationAttempts);
  }

  // Operations

  /** At most so many operations on the slave were added. */
  ghost predicate Spent(before: History, after: History, slave: int, operations: nat) {
    OnlyBus(before, after, slave) && |after| <= |before| + operations
  }

  lemma SpentAgain(a: History, b: History, c: History, slave: int, m: nat, n: nat)
    requires Spent(a, b, slave, m) && Spent(b, c, slave, n)
    ensures Spent(a, c, slave, m + n)
  {
    OnlyBusTransitive(a, b, c, slave);
  }

  /** The last event is the operation, and the outcome is the bus's answer to it. */
  ghost predicate Answered(env: Environment, op: Operation, log: History, a: Answer) {
    && |log| < |a.log|
    && a.log[|a.log| - 1] == Bus(op)
    && a.outcome == env.client(a.log)
  }

  lemma {:induction false} RetryFacts(env: Environment, op: Operation, log: History, attempts: nat)
    requires 1 <= attempts
    ensures Spent(log, Retry(env, op, log, attempts).log, op.slave, attempts)
    ensures Answered(env, op, log, Retry(env, op, log, attempts))
    decreases attempts
  {
    var now := log + [Bus(op)];
    var outcome := env.client(now);
    if outcome.Fault? && outcome.error.Retryable() && attempts > 1 {
      RetryFacts(env, op, now, attempts - 1);
      SpentAgain(log, now, Retry(env, op, now, attempts - 1).log, op.slave, 1, attempts - 1);
    }
  }

  lemma AnsweredRead(env: Environment, slave: int, address: int, log: History, a: Answer)
    requires Answered(env, Read(slave, address, 1), log, a)
    requires a.outcome.Ok? && |a.outcome.values| == 1
    ensures ReadBack(env, |log|, a.log, slave, address, a.outcome.values[0])
  {
    var p := |a.log| - 1;
    assert a.outcome.values == [a.outcome.values[0]];
    assert a.log[..p + 1] == a.log;
  }

  lemma ReadOneFacts(env: Environment, s: Settings, slave: int, address: int, log: History)
    requires s.Valid()
    ensures var a := ReadOne(env, s, slave, address, log);
            && Spent(log, a.log, slave, s.operationAttempts)
            && (a.outcome.Ok? ==> |a.outcome.values| == 1 && ReadBack(env, |log|, a.log, slave, address, a.outcome.values[0]))
  {
    RetryFacts(env, Read(slave, address, 1), log, s.operationAttempts);
    var raw := Retry(env, Read(slave, address, 1), log, s.operationAttempts);
    if raw.outcome.Ok? && |raw.outcome.values| == 1 {
      AnsweredRead(env, slave, address, log, raw);
    }
  }

  lemma ReadProfileFacts(env: Environment, s: Settings, slave: int, log: History)
    requires s.Valid()
    ensures var p := ReadProfile(env, s, slave, log);
            && Spent(log, p.log, slave, 2 * s.operationAttempts)
            && (p.result.GotProfile? ==> p.result.profile.Valid())
  {
    ReadOneFacts(env, s, slave, CAPABILITIES, log);
    var c := ReadOne(env, s, slave, CAPABILITIES, log);
    RetryFacts(env, Read(slave, MODE_LIMITATION, 3), c.log, s.operationAttempts);
    SpentAgain(log, c.log, Retry(env, Read(slave, MODE_LIMITATION, 3), c.log, s.operationAttempts).log, slave,
               s.operationAttempts, s.operationAttempts);
  }

  ghost predicate DistinctAddresses(expectations: seq<Expectation>) {
    forall i, j :: 0 <= i < j < |expectations| ==> expectations[i].address != expectations[j].address
  }

  ghost predicate Untouched(expectations: seq<Expectation>, before: map<int, int>, after: map<int, int>) {
    forall x :: x in before && (forall i :: 0 <= i < |expectations| ==> expectations[i].address != x)
      ==> x in after && after[x] == before[x]
  }

  lemma CompleteStep(env: Environment, start: nat, middle: nat, log: History, slave: int,
                     expectations: seq<Expectation>, observed: map<int, int>)
    requires expectations != [] && start <= middle
    requires expectations[0].address in observed
    requires ReadBack(env, start, log, slave, expectations[0].address, observed[expectations[0].address])
    requires Complete(env, middle, log, slave, expectations[1..], observed)
    ensures Complete(env, start, log, slave, expectations, observed)
  {
    forall i | 0 <= i < |expectations|
      ensures expectations[i].address in observed
      ensures ReadBack(env, start, log, slave, expectations[i].address, observed[expectations[i].address])
    {
      if i > 0 {
        var e := expectations[1..][i - 1];
        assert e == expectations[i];
        ReadBackEarlier(env, middle, start, log, slave, e.address, observed[e.address]);
      }
    }
  }

  lemma UntouchedStep(expectations: seq<Expectation>, before: map<int, int>, after: map<int, int>, value: int)
    requires expectations != [] && DistinctAddresses(expectations)
    requires Untouched(expectations[1..], before[expectations[0].address := value], after)
    ensures Untouched(expectations, before, after)
    ensures expectations[0].address in after && after[expectations[0].address] == value
  {
    var rest := expectations[1..];
    assert forall i :: 0 <= i < |rest| ==> rest[i] == expectations[i + 1];
    forall x | x in before && (forall i :: 0 <= i < |expectations| ==> expectations[i].address != x)
      ensures x in after && after[x] == before[x]
    {
      assert x != expectations[0].address;
    }
  }

  lemma {:induction false} SweepFacts(env: Environment, s: Settings, slave: int, expectations: seq<Expectation>,
                                      observed: map<int, int>, log: History)
    requires s.Valid() && DistinctAddresses(expectations)
    ensures var a := Sweep(env, s, slave, expectations, observed, log);
            && Spent(log, a.log, slave, Times(|expectations|, s.operationAttempts))
            && (a.result.Observed? ==>
                && Complete(env, |log|, a.log, slave, expectations, a.result.values)
                && Untouched(expectations, observed, a.result.values))
    decreases |expectations|
  {
    if expectations != [] {
      var address, rest := expectations[0].address, expectations[1..];
      var m := s.operationAttempts;
      ReadOneFacts(env, s, slave, address, log);
      var r := ReadOne(env, s, slave, address, log);
      if r.outcome.Ok? {
        var value := r.outcome.values[0];
        assert forall i :: 0 <= i < |rest| ==> rest[i] == expectations[i + 1];
        SweepFacts(env, s, slave, rest, observed[address := value], r.log);
        var a := Sweep(env, s, slave, rest, observed[address := value], r.log);
        SpentAgain(log, r.log, a.log, slave, m, Times(|rest|, m));
        if a.result.Observed? {
          UntouchedStep(expectations, observed, a.result.values, value);
          ReadBackLasts(env, |log|, r.log, a.log, slave, address, value);
          CompleteStep(env, |log|, |r.log|, a.log, slave, expectations, a.result.values);
        }
      }
    }
  }

  // Readback and writes

  ghost predicate GoodLog(env: Environment, log: History) {
    NoBlindRewrite(log) && HonestSweeps(env, log)
  }

  lemma SweepMark(env: Environment, log: History, swept: History, plan: Plan, observed: map<int, int>)
    requires GoodLog(env, log) && OnlyBus(log, swept, plan.slave)
    requires Complete(env, |log|, swept, plan.slave, plan.expectations, observed)
    ensures GoodLog(env, swept + [Swept(plan, observed)])
    ensures OwnEvents(log, swept + [Swept(plan, observed)], plan.slave, plan.roomKey, plan.version)
    ensures BusOps(swept + [Swept(plan, observed)]) == BusOps(swept)
    ensures CompareReadback(plan, observed) != [] ==>
              !Unverified(swept + [Swept(plan, observed)], plan.roomKey, plan.version)
  {
    var mark := Swept(plan, observed);
    OnlyBusFrame(env, log, swept, plan.slave, plan.roomKey, plan.version);
    assert SweptJustNow(env, swept, plan, observed);
    NoBlindRewriteAppend(swept, mark);
    HonestSweepsAppend(env, swept, mark);
    BusOpsAppend(swept, mark);
    UnverifiedAppend(swept, mark, plan.roomKey, plan.version);
  }

  /** One sweep of a readback, with its mark when it was completed. */
  lemma SweepKeeps(env: Environment, s: Settings, plan: Plan, log: History)
    requires s.Valid() && DistinctAddresses(plan.expectations) && GoodLog(env, log)
    ensures var a := Sweep(env, s, plan.slave, plan.expectations, map[], log);
            var after := if a.result.Observed? then a.log + [Swept(plan, a.result.values)] else a.log;
            && GoodLog(env, after)
            && OwnEvents(log, after, plan.slave, plan.roomKey, plan.version)
            && BusOps(after) <= BusOps(log) + Times(|plan.expectations|, s.operationAttempts)
            && (a.result.Observed? && CompareReadback(plan, a.result.values) != [] ==>
                !Unverified(after, plan.roomKey, plan.version))
  {
    SweepFacts(env, s, plan.slave, plan.expectations, map[], log);
    var a := Sweep(env, s, plan.slave, plan.expectations, map[], log);
    OnlyBusCount(log, a.log, plan.slave);
    if a.result.Observed? {
      SweepMark(env, log, a.log, plan, a.result.values);
    } else {
      OnlyBusFrame(env, log, a.log, plan.slave, plan.roomKey, plan.version);
      OnlyBusIsOwn(log, a.log, plan.slave, plan.roomKey, plan.version);
    }
  }

  lemma {:induction false} ReadbackFacts(env: Environment, s: Settings, plan: Plan, log: History, attempts: nat)
    requires s.Valid() && 1 <= attempts && DistinctAddresses(plan.expectations) && GoodLog(env, log)
    ensures var a := Readback(env, s, plan, log, attempts);
            && GoodLog(env, a.log)
            && OwnEvents(log, a.log, plan.slave, plan.roomKey, plan.version)
            && BusOps(a.log) <= BusOps(log) + Times(attempts, Times(|plan.expectations|, s.operationAttempts))
            && (a.result.Observed? && CompareReadback(plan, a.result.values) != [] ==>
                !Unverified(a.log, plan.roomKey, plan.version))
    decreases attempts
  {
    hide BusOps, NoBlindRewrite, HonestSweeps, Unverified;
    SweepKeeps(env, s, plan, log);
    var a := Sweep(env, s, plan.slave, plan.expectations, map[], log);
    if a.result.Observed? && CompareReadback(plan, a.result.values) != [] && attempts > 1 {
      var marked := a.log + [Swept(plan, a.result.values)];
      ReadbackFacts(env, s, plan, marked, attempts - 1);
      OwnEventsTransitive(log, marked, Readback(env, s, plan, marked, attempts - 1).log, plan.slave, plan.roomKey, plan.version);
    }
  }

  lemma {:induction false} WriteAllFacts(env: Environment, s: Settings, slave: int, writes: seq<RegisterWrite>,
                                         done: nat, log: History)
    requires s.Valid() && done <= |writes|
    ensures Spent(log, WriteAll(env, s, slave, writes, done, log).log, slave, Times(|writes| - done, s.operationAttempts))
    decreases |writes| - done
  {
    var m := s.operationAttempts;
    if done < |writes| {
      var op := Write(slave, writes[done].address, writes[done].value);
      RetryFacts(env, op, log, m);
      var a := Retry(env, op, log, m);
      var left := Times(|writes| - (done + 1), m);
      if a.outcome.Ok? {
        WriteAllFacts(env, s, slave, writes, done + 1, a.log);
        SpentAgain(log, a.log, WriteAll(env, s, slave, writes, done + 1, a.log).log, slave, m, left);
      }
    }
  }

  // The invariant of one room

  ghost predicate NotAbove(lower: Option<int>, upper: Option<int>) {
    lower.Some? ==> upper.Some? && lower.value <= upper.value
  }

  ghost predicate PlanFits(plan: Plan, key: string, slave: int, version: int) {
    SafePlan(plan) && plan.roomKey == key && plan.slave == slave && plan.version == version
  }

  ghost predicate AttemptInv(room: RoomState, attempt: Attempt, key: string, slave: int) {
    && room.seen == Some(attempt.version)
    && (attempt.phase.Terminal? <==> room.terminal == room.seen)
    && (attempt.phase.Retryable? ==> attempt.plan.None? && attempt.completed == [])
    && (attempt.phase.Writing? || attempt.phase.VerificationPending? ==> attempt.plan.Some?)
    && (attempt.plan.Some? ==>
        PlanFits(attempt.plan.value, key, slave, attempt.version) && attempt.completed <= attempt.plan.value.writes)
    && (attempt.phase.Terminal? ==>
        && attempt.cached.Some?
        && attempt.cached.value.roomKey == key
        && attempt.cached.value.version == attempt.version
        && !attempt.cached.value.message.PayloadClash?
        && (attempt.cached.value.status.Applied? <==> room.applied == Some(attempt.version)))
  }

  /** The three watermarks are ordered and the attempt is the one of the highest version seen. */
  ghost predicate RoomInv(room: RoomState, key: string, slave: int) {
    && NotAbove(room.applied, room.terminal)
    && NotAbove(room.terminal, room.seen)
    && (room.attempt.Some? <==> room.seen.Some?)
    && (room.attempt.Some? ==> AttemptInv(room, room.attempt.value, key, slave))
  }

  /** The room and the history agree on what still has to be verified before writing. */
  ghost predicate Consistent(env: Environment, key: string, slave: int, st: Local) {
    && RoomInv(st.room, key, slave)
    && GoodLog(env, st.log)
    && (forall v :: NotAbove(Some(v), st.room.seen) || !Unverified(st.log, key, v))
    && (st.room.attempt.Some? && st.room.attempt.value.phase.Retryable? ==>
        !Unverified(st.log, key, st.room.attempt.value.version))
  }

  ghost predicate OthersKept(slave: int, before: Failures, after: Failures) {
    forall x :: x != slave ==> (x in before <==> x in after) && (x in before ==> before[x] == after[x])
  }

  /** What a part of a call, working on the current attempt, leaves as it was or lets only grow. */
  ghost predicate Kept(key: string, slave: int, before: Local, after: Local)
    requires before.room.attempt.Some?
  {
    && after.room.attempt.Some?
    && after.room.seen == before.room.seen
    && after.room.attempt.value.version == before.room.attempt.value.version
    && after.room.attempt.value.fingerprint == before.room.attempt.value.fingerprint
    && NotAbove(before.room.terminal, after.room.terminal)
    && NotAbove(before.room.applied, after.room.applied)
    && OwnEvents(before.log, after.log, slave, key, before.room.attempt.value.version)
    && OthersKept(slave, before.failures, after.failures)
  }

  lemma KeptTransitive(key: string, slave: int, a: Local, b: Local, c: Local)
    requires a.room.attempt.Some? && Kept(key, slave, a, b) && Kept(key, slave, b, c)
    ensures Kept(key, slave, a, c)
  {
    OwnEventsTransitive(a.log, b.log, c.log, slave, key, a.room.attempt.value.version);
  }

  /** A call part ends well: the invariant holds, nothing else changed, and it was not too expensive. */
  ghost predicate Fine(env: Environment, key: string, slave: int, before: Local, after: Local, cost: nat)
    requires before.room.attempt.Some?
  {
    && Consistent(env, key, slave, after)
    && Kept(key, slave, before, after)
    && BusOps(after.log) <= BusOps(before.log) + cost
  }

  lemma FineTransitive(env: Environment, key: string, slave: int, a: Local, b: Local, c: Local, m: nat, n: nat)
    requires a.room.attempt.Some? && Fine(env, key, slave, a, b, m) && Fine(env, key, slave, b, c, n)
    ensures Fine(env, key, slave, a, c, m + n)
  {
    KeptTransitive(key, slave, a, b, c);
  }

  /** The result of a call answers the intent that was delivered. */
  ghost predicate Answers(intent: Intent, result: Option<ExecutionResult>) {
    result.Some? ==>
      && result.value.roomKey == intent.roomKey
      && result.value.version == intent.version
      && result.value.correlationId == intent.correlationId
  }

  ghost predicate CurrentIntent(intent: Intent, key: string, st: Local) {
    && intent.roomKey == key
    && st.room.attempt.Some?
    && st.room.attempt.value.version == intent.version
  }

  lemma MarkTerminalFine(env: Environment, key: string, slave: int, st: Local, result: ExecutionResult, applied: bool)
    requires st.room.attempt.Some? && Consistent(env, key, slave, st) && !st.room.attempt.value.phase.Terminal?
    requires result.roomKey == key && result.version == st.room.attempt.value.version && !result.message.PayloadClash?
    requires applied <==> result.status.Applied?
    ensures Fine(env, key, slave, st, MarkTerminal(st, result, applied).st, 0)
  {
  }

  lemma RecordingFine(env: Environment, s: Settings, key: string, slave: int, st: Local)
    requires st.room.attempt.Some? && Consistent(env, key, slave, st)
    ensures Fine(env, key, slave, st, RecordFailure(env, s, slave, st), 0)
    ensures Fine(env, key, slave, st, RecordSuccess(slave, st), 0)
  {
  }

  // The parts of a call

  lemma VerifyFine(env: Environment, s: Settings, intent: Intent, key: string, slave: int, st: Local, terminalOnMismatch: bool)
    requires s.Valid() && CurrentIntent(intent, key, st) && Consistent(env, key, slave, st)
    requires st.room.attempt.value.phase.Writing? || st.room.attempt.value.phase.VerificationPending?
    ensures var v := Verify(env, s, intent, st, terminalOnMismatch);
            && Fine(env, key, slave, st, v.st, ReadbackCost(s))
            && (v.Verdict? ==> Answers(intent, Some(v.result)))
            && (v.Differs? ==>
                && !terminalOnMismatch
                && v.st.room == st.room && v.st.failures == st.failures
                && !Unverified(v.st.log, key, intent.version))
  {
    hide BusOps, NoBlindRewrite, HonestSweeps, Unverified, Readback;
    var attempt := st.room.attempt.value;
    var plan := attempt.plan.value;
    var a := Readback(env, s, plan, st.log, s.readbackAttempts);
    var now := st.(log := a.log);
    ReadbackFacts(env, s, plan, st.log, s.readbackAttempts);
    AtMostThree(|plan.expectations|, s);
    OtherVersionsFrame(env, key, slave, st, a.log);
    assert Fine(env, key, slave, st, now, ReadbackCost(s));
    match a.result
    case SweepEscaped =>
    case SweepFault(error) =>
      var result := ResultOf(intent, AppliedUnconfirmed, VerificationFailed(error), attempt.completed, []);
      MarkTerminalFine(env, key, slave, now, result, false);
    case Observed(values) =>
      var mismatches := CompareReadback(plan, values);
      if mismatches == [] {
        MarkTerminalFine(env, key, slave, now, ResultOf(intent, Applied, NoMessage, attempt.completed, []), true);
      } else {
        MarkTerminalFine(env, key, slave, now, ResultOf(intent, ReadbackMismatch, StateDiffers, attempt.completed, mismatches), false);
      }
  }

  /** While the version's attempt is past its write phase start, its own events keep the invariant. */
  lemma OtherVersionsFrame(env: Environment, key: string, slave: int, st: Local, log: History)
    requires st.room.attempt.Some? && Consistent(env, key, slave, st) && !st.room.attempt.value.phase.Retryable?
    requires GoodLog(env, log) && OwnEvents(st.log, log, slave, key, st.room.attempt.value.version)
    ensures Consistent(env, key, slave, st.(log := log))
  {
    forall v | !NotAbove(Some(v), st.room.seen)
      ensures !Unverified(log, key, v)
    {
      OwnEventsFrame(st.log, log, slave, key, st.room.attempt.value.version, key, v);
    }
  }

  lemma OnlyBusKeeps(env: Environment, key: string, slave: int, st: Local, log: History, cost: nat)
    requires st.room.attempt.Some? && Consistent(env, key, slave, st) && Spent(st.log, log, slave, cost)
    ensures Fine(env, key, slave, st, st.(log := log), cost)
  {
    forall v
      ensures Unverified(log, key, v) == Unverified(st.log, key, v)
    {
      OnlyBusFrame(env, st.log, log, slave, key, v);
    }
    OnlyBusFrame(env, st.log, log, slave, key, st.room.attempt.value.version);
    OnlyBusCount(st.log, log, slave);
    OnlyBusIsOwn(st.log, log, slave, key, st.room.attempt.value.version);
  }

  lemma ConfirmFreshFine(env: Environment, s: Settings, intent: Intent, key: string, slave: int, st: Local)
    requires s.Valid() && CurrentIntent(intent, key, st) && Consistent(env, key, slave, st)
    requires st.room.attempt.value.phase.Writing?
    ensures var r := ConfirmFresh(env, s, intent, slave, st);
            && Fine(env, key, slave, st, r.st, ReadbackCost(s))
            && Answers(intent, r.result)
  {
    hide BusOps, NoBlindRewrite, HonestSweeps, Unverified, Readback;
    var cost := ReadbackCost(s);
    var pending := WithAttempt(st, st.room.attempt.value.(phase := VerificationPending));
    assert Fine(env, key, slave, st, pending, 0);
    VerifyFine(env, s, intent, key, slave, pending, true);
    var v := Verify(env, s, intent, pending, true);
    FineTransitive(env, key, slave, st, pending, v.st, 0, cost);
    RecordedFine(env, s, key, slave, st, v.st, cost);
  }

  lemma BeginWritingFine(env: Environment, key: string, slave: int, st: Local, plan: Plan)
    requires st.room.attempt.Some? && Consistent(env, key, slave, st) && st.room.attempt.value.phase.Retryable?
    requires PlanFits(plan, key, slave, st.room.attempt.value.version)
    ensures Fine(env, key, slave, st, BeginWriting(st, plan), 0)
  {
    var e := WritePhase(plan);
    NoBlindRewriteAppend(st.log, e);
    HonestSweepsAppend(env, st.log, e);
    BusOpsAppend(st.log, e);
    forall v
      ensures v != plan.version ==> Unverified(st.log + [e], key, v) == Unverified(st.log, key, v)
    {
      UnverifiedAppend(st.log, e, key, v);
    }
  }

  lemma AfterWritesFine(env: Environment, s: Settings, key: string, slave: int, plan: Plan, st: Local)
    requires s.Valid() && st.room.attempt.Some? && Consistent(env, key, slave, st)
    requires st.room.attempt.value.phase.Writing? && st.room.attempt.value.plan == Some(plan)
    ensures var now := AfterWrites(st, plan, WriteAll(env, s, slave, plan.writes, 0, st.log));
            Fine(env, key, slave, st, now, 3 * s.operationAttempts) && now.room.attempt.value.phase.Writing?
  {
    var m := s.operationAttempts;
    WriteAllFacts(env, s, slave, plan.writes, 0, st.log);
    var w := WriteAll(env, s, slave, plan.writes, 0, st.log);
    ThreeTimes(|plan.writes|, m);
    OnlyBusKeeps(env, key, slave, st, w.log, 3 * m);
  }

  lemma FinishWritingFine(env: Environment, s: Settings, intent: Intent, key: string, slave: int, st: Local, outcome: Outcome)
    requires s.Valid() && CurrentIntent(intent, key, st) && Consistent(env, key, slave, st)
    requires st.room.attempt.value.phase.Writing?
    ensures var r := FinishWriting(env, s, intent, slave, st, outcome);
            && Fine(env, key, slave, st, r.st, ReadbackCost(s))
            && Answers(intent, r.result)
  {
    var completed := st.room.attempt.value.completed;
    match outcome
    case Ok(_) =>
      ConfirmFreshFine(env, s, intent, key, slave, st);
    case Fault(error) =>
      var result := ResultOf(intent, FailureStatus(error), TransportFailed(error), completed, []);
      if error.Retryable() {
        var pending := WithAttempt(st, st.room.attempt.value.(phase := VerificationPending));
        assert Fine(env, key, slave, st, pending, 0);
        RecordingFine(env, s, key, slave, pending);
        FineTransitive(env, key, slave, st, pending, RecordFailure(env, s, slave, pending), 0, 0);
      } else {
        MarkTerminalFine(env, key, slave, st, result, false);
      }
    case _ =>
  }

  lemma WriteOutFine(env: Environment, s: Settings, intent: Intent, key: string, slave: int, plan: Plan, st: Local)
    requires s.Valid() && CurrentIntent(intent, key, st) && Consistent(env, key, slave, st)
    requires st.room.attempt.value.phase.Retryable? && PlanFits(plan, key, slave, intent.version)
    ensures var r := WriteOut(env, s, intent, slave, plan, st);
            && Fine(env, key, slave, st, r.st, 3 * s.operationAttempts + ReadbackCost(s))
            && Answers(intent, r.result)
  {
    var m, cost := s.operationAttempts, ReadbackCost(s);
    var started := BeginWriting(st, plan);
    BeginWritingFine(env, key, slave, st, plan);
    AfterWritesFine(env, s, key, slave, plan, started);
    var w := WriteAll(env, s, slave, plan.writes, 0, started.log);
    var now := AfterWrites(started, plan, w);
    FinishWritingFine(env, s, intent, key, slave, now, w.outcome);
    FineTransitive(env, key, slave, st, started, now, 0, 3 * m);
    FineTransitive(env, key, slave, st, now, FinishWriting(env, s, intent, slave, now, w.outcome).st, 3 * m, cost);
  }

  lemma ProfileFine(env: Environment, s: Settings, intent: Intent, key: string, slave: int, st: Local)
    requires s.Valid() && st.room.attempt.Some? && Consistent(env, key, slave, st)
    ensures Fine(env, key, slave, st, st.(log := ProfileFor(env, s, intent, slave, st.log).log), 2 * s.operationAttempts)
  {
    ReadProfileFacts(env, s, slave, st.log);
    OnlyBusKeeps(env, key, slave, st, ProfileFor(env, s, intent, slave, st.log).log, 2 * s.operationAttempts);
  }

  lemma PrepareFine(env: Environment, s: Settings, intent: Intent, key: string, slave: int, st: Local)
    requires s.Valid() && CurrentIntent(intent, key, st) && Consistent(env, key, slave, st)
    requires st.room.attempt.value.phase.Retryable?
    ensures var r := Prepare(env, s, intent, slave, st);
            && Fine(env, key, slave, st, r.st, 5 * s.operationAttempts + ReadbackCost(s))
            && Answers(intent, r.result)
  {
    var m, cost := s.operationAttempts, ReadbackCost(s);
    var p := ProfileFor(env, s, intent, slave, st.log);
    var now := st.(log := p.log);
    ProfileFine(env, s, intent, key, slave, st);
    FinishPreparing(env, s, intent, key, slave, now, p.result);
    FineTransitive(env, key, slave, st, now, AfterProfile(env, s, intent, slave, now, p.result).st, 2 * m, 3 * m + cost);
  }

  lemma FinishPreparing(env: Environment, s: Settings, intent: Intent, key: string, slave: int, st: Local, profile: ProfileResult)
    requires s.Valid() && CurrentIntent(intent, key, st) && Consistent(env, key, slave, st)
    requires st.room.attempt.value.phase.Retryable?
    ensures var r := AfterProfile(env, s, intent, slave, st, profile);
            && Fine(env, key, slave, st, r.st, 3 * s.operationAttempts + ReadbackCost(s))
            && Answers(intent, r.result)
  {
    match profile
    case ProfileAbandoned =>
    case Unusable =>
      MarkTerminalFine(env, key, slave, st, Plainly(intent, Rejected, NotPlannable), false);
    case ProfileFault(error) =>
      if error.Retryable() {
        RecordingFine(env, s, key, slave, st);
      } else {
        MarkTerminalFine(env, key, slave, st, Plainly(intent, FailureStatus(error), TransportFailed(error)), false);
      }
    case _ =>
      var device := profile.Device();
      if PlanOf(intent, slave, device).Refused? {
        MarkTerminalFine(env, key, slave, st, Plainly(intent, Rejected, NotPlannable), false);
      } else {
        PlannedIsSafe(intent, slave, device);
        WriteOutFine(env, s, intent, key, slave, PlanOf(intent, slave, device).plan, st);
      }
  }

  lemma ResetFine(env: Environment, key: string, slave: int, st: Local)
    requires st.room.attempt.Some? && Consistent(env, key, slave, st)
    requires !st.room.attempt.value.phase.Terminal? && !Unverified(st.log, key, st.room.attempt.value.version)
    ensures Fine(env, key, slave, st, Reset(st), 0)
  {
  }

  lemma ExecuteFine(env: Environment, s: Settings, intent: Intent, key: string, slave: int, st: Local)
    requires s.Valid() && CurrentIntent(intent, key, st) && Consistent(env, key, slave, st)
    requires !st.room.attempt.value.phase.Terminal? && !Unverified(st.log, key, intent.version)
    ensures var r := Execute(env, s, intent, slave, st);
            && Fine(env, key, slave, st, r.st, 5 * s.operationAttempts + ReadbackCost(s))
            && Answers(intent, r.result)
  {
    var m, cost := s.operationAttempts, ReadbackCost(s);
    var reset := Reset(st);
    ResetFine(env, key, slave, st);
    var now := env.clock(reset.log);
    if WindowClosed(intent, s, now) {
      var result := Plainly(intent, Expired, WindowExpired);
      MarkTerminalFine(env, key, slave, reset, result, false);
      FineTransitive(env, key, slave, st, reset, MarkTerminal(reset, result, false).st, 0, 0);
    } else if !WindowNotOpen(intent, s, now) && !CoolingDown(reset.failures, slave, now) {
      PrepareFine(env, s, intent, key, slave, reset);
      FineTransitive(env, key, slave, st, reset, Prepare(env, s, intent, slave, reset).st, 0, 5 * m + cost);
    }
  }

  lemma RecordedFine(env: Environment, s: Settings, key: string, slave: int, st: Local, now: Local, cost: nat)
    requires st.room.attempt.Some? && Fine(env, key, slave, st, now, cost)
    ensures Fine(env, key, slave, st, RecordFailure(env, s, slave, now), cost)
    ensures Fine(env, key, slave, st, RecordSuccess(slave, now), cost)
  {
    RecordingFine(env, s, key, slave, now);
    FineTransitive(env, key, slave, st, now, RecordFailure(env, s, slave, now), cost, 0);
    FineTransitive(env, key, slave, st, now, RecordSuccess(slave, now), cost, 0);
  }

  lemma ResumeFine(env: Environment, s: Settings, intent: Intent, key: string, slave: int, st: Local)
    requires s.Valid() && CurrentIntent(intent, key, st) && Consistent(env, key, slave, st)
    requires st.room.attempt.value.phase.Writing? || st.room.attempt.value.phase.VerificationPending?
    ensures var r := Resume(env, s, intent, slave, st);
            && Fine(env, key, slave, st, r.st, 5 * s.operationAttempts + 2 * ReadbackCost(s))
            && Answers(intent, r.result)
  {
    if !CoolingDown(st.failures, slave, env.clock(st.log)) {
      VerifyFine(env, s, intent, key, slave, st, false);
      AfterVerificationFine(env, s, intent, key, slave, st, Verify(env, s, intent, st, false));
    }
  }

  lemma AfterVerificationFine(env: Environment, s: Settings, intent: Intent, key: string, slave: int, st: Local, v: Verification)
    requires s.Valid() && CurrentIntent(intent, key, st)
    requires Fine(env, key, slave, st, v.st, ReadbackCost(s))
    requires v.Verdict? ==> Answers(intent, Some(v.result))
    requires v.Differs? ==> !v.st.room.attempt.value.phase.Terminal? && !Unverified(v.st.log, key, intent.version)
    ensures var r := AfterVerification(env, s, intent, slave, v);
            && Fine(env, key, slave, st, r.st, 5 * s.operationAttempts + 2 * ReadbackCost(s))
            && Answers(intent, r.result)
  {
    match v
    case Verdict(now, result) =>
      RecordedFine(env, s, key, slave, st, now, ReadbackCost(s));
    case Differs(now) =>
      RewriteFine(env, s, intent, key, slave, st, now);
    case VerifyEscaped(now) =>
  }

  lemma RewriteFine(env: Environment, s: Settings, intent: Intent, key: string, slave: int, st: Local, now: Local)
    requires s.Valid() && CurrentIntent(intent, key, st)
    requires Fine(env, key, slave, st, now, ReadbackCost(s))
    requires !now.room.attempt.value.phase.Terminal? && !Unverified(now.log, key, intent.version)
    ensures var r := Execute(env, s, intent, slave, now);
            && Fine(env, key, slave, st, r.st, 5 * s.operationAttempts + 2 * ReadbackCost(s))
            && Answers(intent, r.result)
  {
    var m, cost := s.operationAttempts, ReadbackCost(s);
    ExecuteFine(env, s, intent, key, slave, now);
    FineTransitive(env, key, slave, st, now, Execute(env, s, intent, slave, now).st, cost, 5 * m + cost);
  }
}
