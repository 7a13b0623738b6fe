/**
 The deterministic room state machine (app/domain/state_machine.py): which booking a room's
 phase comes from, and what happens to that phase when the bookings are reordered or time passes.
 */
module StateMachine {
  import opened Domain
  import opened Sequences

  function ArrivalAt(booking: Booking, policy: Policy): int {
    booking.arrival * DAY + policy.checkIn
  }

  function CheckoutAt(booking: Booking, policy: Policy): int {
    booking.departure * DAY + policy.checkOut
  }

  function LeadStart(booking: Booking, policy: Policy): int {
    ArrivalAt(booking, policy) - policy.Lead()
  }

  predicate Overlap(left: Booking, right: Booking) {
    left.arrival < right.departure && right.arrival < left.departure
  }

  /** The booking is there for the night that begins on the date. */
  predicate StaysTheNight(b: Booking, date: int) {
    b.arrival <= date < b.departure
  }

  /** Overnight stays overlap exactly when they share a night; a departure and an arrival on one day do not. */
  lemma OverlapIsASharedNight(left: Booking, right: Booking)
    requires OvernightStay(left) && OvernightStay(right)
    ensures Overlap(left, right) <==> exists date :: StaysTheNight(left, date) && StaysTheNight(right, date)
  {
    if Overlap(left, right) {
      var date := if left.arrival < right.arrival then right.arrival else left.arrival;
      assert StaysTheNight(left, date) && StaysTheNight(right, date);
    }
  }

  // Which bookings concern a room

  /** The room's own identifiers, without empty ones, as they are compared with a booking. */
  predicate MatchesRoom(room: Room, booking: Booking) {
    || (booking.roomId.Some? && booking.roomId.value != "" &&
        (booking.roomId == room.clockRoomId || booking.roomId.value == room.key))
    || booking.roomNumber == Some(room.key)
  }

  predicate MatchesRoomAsUnknown(room: Room, booking: Booking) {
    booking.roomId == room.clockRoomId || booking.roomNumber == Some(room.key)
  }

  function IsCandidate(room: Room, onDate: int): Booking -> bool {
    (b: Booking) => b.ActiveForAutomation() && MatchesRoom(room, b) && onDate <= b.departure
  }

  function IsUnknown(room: Room): Booking -> bool {
    (b: Booking) => b.status.UnknownStatus? && MatchesRoomAsUnknown(room, b)
  }

  /** The bookings that an evaluation of the room can look at, on any date. */
  function Concerns(room: Room): Booking -> bool {
    (b: Booking) => (b.ActiveForAutomation() && MatchesRoom(room, b)) || IsUnknown(room)(b)
  }

  function Candidates(room: Room, bookings: seq<Booking>, onDate: int): (r: seq<Booking>) {
    Filter(IsCandidate(room, onDate), bookings)
  }

  /** The loop that collects a room's active bookings. */
  method ActiveBookingsForRoom(room: Room, bookings: seq<Booking>, onDate: int) returns (active: seq<Booking>)
    ensures active == Candidates(room, bookings, onDate)
  {
    active := [];
    for i := 0 to |bookings|
      invariant active == Candidates(room, bookings[..i], onDate)
    {
      var booking := bookings[i];
      assert bookings[..i + 1] == bookings[..i] + [booking];
      FilterAppend(IsCandidate(room, onDate), bookings[..i], [booking]);
      if !booking.ActiveForAutomation() {
        continue;
      }
      if !MatchesRoom(room, booking) {
        continue;
      }
      if onDate <= booking.departure {
        active := active + [booking];
      }
    }
    assert bookings[..|bookings|] == bookings;
  }

  // Conflicts

  predicate HasOverlap(bookings: seq<Booking>) {
    exists i, j :: 0 <= i < j < |bookings| && Overlap(bookings[i], bookings[j])
  }

  /** The first booking that overlaps a later one, as the nested scan finds it. */
  method FindConflict(candidates: seq<Booking>) returns (found: Option<Booking>)
    ensures found == FirstConflict(candidates)
  {
    hide HasOverlap;
    for i := 0 to |candidates|
      invariant FirstConflict(candidates) == FirstConflict(candidates[i..])
    {
      var left := candidates[i];
      var rest := candidates[i + 1..];
      assert candidates[i..][1..] == rest;
      for j := 0 to |rest|
        invariant forall k :: 0 <= k < j ==> !Overlap(left, rest[k])
      {
        if Overlap(left, rest[j]) {
          return Some(left);
        }
      }
    }
    return None;
  }

  function FirstConflict(candidates: seq<Booking>): (r: Option<Booking>)
    ensures r.Some? <==> HasOverlap(candidates)
  {
    if candidates == [] then None
    else if exists j :: 1 <= j < |candidates| && Overlap(candidates[0], candidates[j]) then Some(candidates[0])
    else
      var rest := candidates[1..];
      var r := FirstConflict(rest);
      assert HasOverlap(rest) ==> HasOverlap(candidates) by {
        if HasOverlap(rest) {
          var i, j :| 0 <= i < j < |rest| && Overlap(rest[i], rest[j]);
          assert Overlap(candidates[i + 1], candidates[j + 1]);
        }
      }
      assert HasOverlap(candidates) ==> HasOverlap(rest) by {
        if HasOverlap(candidates) {
          var i, j :| 0 <= i < j < |candidates| && Overlap(candidates[i], candidates[j]);
          assert Overlap(rest[i - 1], rest[j - 1]);
        }
      }
      r
  }

  // Selection

  function WithStatus(status: BookingStatus): Booking -> bool {
    (b: Booking) => b.status == status
  }

  function ByCheckout(policy: Policy): Booking -> int {
    (b: Booking) => CheckoutAt(b, policy)
  }

  function ByArrival(policy: Policy): Booking -> int {
    (b: Booking) => ArrivalAt(b, policy)
  }

  function SelectRelevantBooking(bookings: seq<Booking>, policy: Policy): (r: Option<Booking>)
    ensures r.None? <==> bookings == []
    ensures r.Some? ==> r.value in bookings
  {
    if bookings == [] then None
    else
      var checkedIn := Filter(WithStatus(CheckedIn), bookings);
      if checkedIn != [] then Some(Earliest(ByCheckout(policy), checkedIn))
      else
        var expected := Filter(WithStatus(Expected), bookings);
        if expected != [] then Some(Earliest(ByArrival(policy), expected))
        else Some(Earliest((b: Booking) => b.arrival, bookings))
  }

  // Evaluation

  function Plain(room: Room, phase: AutomationPhase, booking: Option<Booking>, reason: Reason,
                 effectiveFrom: int, expiresAt: Option<int>): Evaluation
  {
    Evaluation(Some(room.key), phase, booking, false, NoAttention, reason, effectiveFrom, expiresAt)
  }

  function EvaluateRoom(room: Room, bookings: seq<Booking>, now: int, policy: Policy,
                        override: Option<ManualOverride>): (e: Evaluation)
    ensures e.roomKey == Some(room.key)
  {
    if !room.enabled then
      Plain(room, Disabled, None, RoomDisabledByConfiguration, now, None)
    else
      var candidates := Candidates(room, bookings, DateOf(now));
      var unknown := Filter(IsUnknown(room), bookings);
      if unknown != [] then
        Evaluation(Some(room.key), UnknownPhase, Some(unknown[0]), true, UnknownClockStatus,
                   UnknownStatusSuppressesActions, now, None)
      else
        var conflict := FirstConflict(candidates);
        if conflict.Some? then
          Evaluation(Some(room.key), Conflict, conflict, true, OverlappingActiveBookings,
                     OverlappingBookingsAssigned, now, None)
        else
          EvaluateSelected(room, SelectRelevantBooking(candidates, policy), now, policy, override)
  }

  function EvaluateSelected(room: Room, selected: Option<Booking>, now: int, policy: Policy,
                            override: Option<ManualOverride>): (e: Evaluation)
    ensures e.roomKey == Some(room.key)
  {
    if selected.None? then
      Plain(room, Vacant, None, NoActiveAssignedReservation, now, None)
    else
      var booking := selected.value;
      if override.Some? && override.value.IsActive(now, booking.id) then
        Plain(room, OverridePhase, selected, ValidManualOverrideActive, now, override.value.expiresAt)
      else if booking.status.CheckedIn? then
        if now >= CheckoutAt(booking, policy) then
          Plain(room, CheckoutDue, selected, DeparturePassedWithoutCheckout, now, None)
        else
          Plain(room, Occupied, selected, ClockReportsCheckedIn, now, Some(CheckoutAt(booking, policy)))
      else if booking.status.Expected? then
        var leadStart := LeadStart(booking, policy);
        if now >= leadStart then
          Plain(room, PreArrival, selected, ArrivalInsidePreparationWindow, leadStart,
                Some(CheckoutAt(booking, policy)))
        else
          Plain(room, Reserved, selected, ReservationOutsidePreparationWindow, now, Some(leadStart))
      else
        Plain(room, Vacant, selected, BookingInactiveForAutomation, now, None)
  }

  /** The window an evaluation gives to the intent derived from it. */
  predicate WindowShape(e: Evaluation, now: int, policy: Policy, override: Option<ManualOverride>) {
    match e.phase
    case OverridePhase =>
      && override.Some?
      && e.booking.Some?
      && override.value.IsActive(now, e.booking.value.id)
      && e.effectiveFrom == now
      && e.expiresAt == override.value.expiresAt
    case PreArrival =>
      && e.booking.Some?
      && e.effectiveFrom == LeadStart(e.booking.value, policy)
      && e.expiresAt == Some(CheckoutAt(e.booking.value, policy))
    case Reserved =>
      e.expiresAt.Some? && e.effectiveFrom == now < e.expiresAt.value
    case Occupied =>
      e.expiresAt.Some? && e.effectiveFrom == now < e.expiresAt.value
    case _ =>
      e.effectiveFrom == now && e.expiresAt.None? && !e.phase.AwaitingAssignment?
  }

  lemma SelectedShape(room: Room, selected: Option<Booking>, now: int, policy: Policy,
                      override: Option<ManualOverride>)
    ensures WindowShape(EvaluateSelected(room, selected, now, policy, override), now, policy, override)
    ensures EvaluateSelected(room, selected, now, policy, override).booking == selected
  {
  }

  lemma EvaluationShape(room: Room, bookings: seq<Booking>, now: int, policy: Policy,
                        override: Option<ManualOverride>)
    ensures WindowShape(EvaluateRoom(room, bookings, now, policy, override), now, policy, override)
    ensures var e := EvaluateRoom(room, bookings, now, policy, override);
            e.booking.Some? ==> e.booking.value in bookings
  {
    var candidates := Candidates(room, bookings, DateOf(now));
    SelectedShape(room, SelectRelevantBooking(candidates, policy), now, policy, override);
    FirstConflictIsMember(candidates);
  }

  lemma {:induction false} FirstConflictIsMember(candidates: seq<Booking>)
    ensures FirstConflict(candidates).Some? ==> FirstConflict(candidates).value in candidates
  {
    if candidates != [] {
      FirstConflictIsMember(candidates[1..]);
    }
  }

  // Locality: an evaluation sees nothing but the bookings that concern the room

  lemma EvaluationIsLocal(room: Room, bookings: seq<Booking>, now: int, policy: Policy,
                          override: Option<ManualOverride>)
    ensures EvaluateRoom(room, bookings, now, policy, override)
         == EvaluateRoom(room, Filter(Concerns(room), bookings), now, policy, override)
  {
    FilterFilter(IsCandidate(room, DateOf(now)), Concerns(room), bookings);
    FilterFilter(IsUnknown(room), Concerns(room), bookings);
  }

  // Conflict, characterised on the list of bookings

  /** Two entries of the list are active stays in this room that overlap. */
  predicate TwoStaysCollide(room: Room, bookings: seq<Booking>, onDate: int) {
    exists i, j :: 0 <= i < j < |bookings|
      && IsCandidate(room, onDate)(bookings[i])
      && IsCandidate(room, onDate)(bookings[j])
      && Overlap(bookings[i], bookings[j])
  }

  lemma {:induction false} CandidatePlaces(room: Room, bookings: seq<Booking>, onDate: int, i: nat, j: nat)
    returns (k: nat, l: nat)
    requires i < j < |Candidates(room, bookings, onDate)|
    ensures k < l < |bookings|
    ensures bookings[k] == Candidates(room, bookings, onDate)[i] && bookings[l] == Candidates(room, bookings, onDate)[j]
  {
    var rest := bookings[1..];
    var some := Candidates(room, rest, onDate);
    if !IsCandidate(room, onDate)(bookings[0]) {
      k, l := CandidatePlaces(room, rest, onDate, i, j);
      k, l := k + 1, l + 1;
    } else if i == 0 {
      assert some[j - 1] in rest;
      l :| 0 <= l < |rest| && rest[l] == some[j - 1];
      k, l := 0, l + 1;
    } else {
      k, l := CandidatePlaces(room, rest, onDate, i - 1, j - 1);
      k, l := k + 1, l + 1;
    }
  }

  lemma CollisionsSurviveFilter(room: Room, bookings: seq<Booking>, onDate: int)
    ensures HasOverlap(Candidates(room, bookings, onDate)) <==> TwoStaysCollide(room, bookings, onDate)
  {
    var candidates := Candidates(room, bookings, onDate);
    if HasOverlap(candidates) {
      var i, j :| 0 <= i < j < |candidates| && Overlap(candidates[i], candidates[j]);
      var k, l := CandidatePlaces(room, bookings, onDate, i, j);
      assert candidates[i] in candidates && candidates[j] in candidates;
    }
    if TwoStaysCollide(room, bookings, onDate) {
      var i, j :| 0 <= i < j < |bookings| && IsCandidate(room, onDate)(bookings[i])
        && IsCandidate(room, onDate)(bookings[j]) && Overlap(bookings[i], bookings[j]);
      var k, l := FilterPlaces(IsCandidate(room, onDate), bookings, i, j);
      assert Overlap(candidates[k], candidates[l]);
    }
  }

  lemma OverlapInTail(head: Booking, rest: seq<Booking>)
    requires HasOverlap(rest)
    ensures HasOverlap([head] + rest)
  {
    var i, j :| 0 <= i < j < |rest| && Overlap(rest[i], rest[j]);
    assert Overlap(([head] + rest)[i + 1], ([head] + rest)[j + 1]);
  }

  /** CONFLICT is reported exactly when two matching active stays overlap in an enabled room without unknown matches. */
  lemma ConflictExactly(room: Room, bookings: seq<Booking>, now: int, policy: Policy,
                        override: Option<ManualOverride>)
    ensures EvaluateRoom(room, bookings, now, policy, override).phase.Conflict? <==>
            && room.enabled
            && (forall b :: b in bookings ==> !IsUnknown(room)(b))
            && TwoStaysCollide(room, bookings, DateOf(now))
  {
    CollisionsSurviveFilter(room, bookings, DateOf(now));
    forall b | b in bookings && IsUnknown(room)(b)
      ensures Filter(IsUnknown(room), bookings) != []
    {
      FilterKeeps(IsUnknown(room), bookings, b);
    }
    if Filter(IsUnknown(room), bookings) != [] {
      assert Filter(IsUnknown(room), bookings)[0] in bookings;
    }
  }

  // Order independence

  lemma OverlapPermutes(s: seq<Booking>, t: seq<Booking>)
    requires multiset(s) == multiset(t) && HasOverlap(s)
    ensures HasOverlap(t)
  {
    var i, j :| 0 <= i < j < |s| && Overlap(s[i], s[j]);
    var k, l := PairInPermutation(s, t, i, j);
    if k < l {
      assert Overlap(t[k], t[l]);
    } else {
      assert Overlap(t[l], t[k]);
    }
  }

  /** The candidates that some order of the list would make the selected booking. */
  predicate Frontrunner(candidates: seq<Booking>, policy: Policy, b: Booking) {
    && b in candidates
    && if b.status.CheckedIn? then
         forall x :: x in candidates && x.status.CheckedIn? ==> CheckoutAt(b, policy) <= CheckoutAt(x, policy)
       else
         && b.status.Expected?
         && (forall x :: x in candidates ==> !x.status.CheckedIn?)
         && (forall x :: x in candidates && x.status.Expected? ==> ArrivalAt(b, policy) <= ArrivalAt(x, policy))
  }

  predicate AllActive(candidates: seq<Booking>) {
    forall b :: b in candidates ==> b.ActiveForAutomation()
  }

  lemma SelectedIsFrontrunner(candidates: seq<Booking>, policy: Policy)
    requires candidates != [] && AllActive(candidates)
    ensures Frontrunner(candidates, policy, SelectRelevantBooking(candidates, policy).value)
  {
    forall x | x in candidates && x.status.CheckedIn?
      ensures x in Filter(WithStatus(CheckedIn), candidates)
    {
      FilterKeeps(WithStatus(CheckedIn), candidates, x);
    }
    forall x | x in candidates && x.status.Expected?
      ensures x in Filter(WithStatus(Expected), candidates)
    {
      FilterKeeps(WithStatus(Expected), candidates, x);
    }
    assert candidates[0] in candidates;
  }

  /** Among overnight stays without overlaps there is one frontrunner. */
  lemma FrontrunnerIsUnique(candidates: seq<Booking>, policy: Policy, b: Booking, c: Booking)
    requires forall x :: x in candidates ==> OvernightStay(x)
    requires !HasOverlap(candidates)
    requires Frontrunner(candidates, policy, b) && Frontrunner(candidates, policy, c)
    ensures b == c
  {
    if b != c {
      assert Overlap(b, c);
      MembersOverlap(candidates, b, c);
    }
  }

  lemma MembersOverlap(bookings: seq<Booking>, b: Booking, c: Booking)
    requires b in bookings && c in bookings && b != c && Overlap(b, c)
    ensures HasOverlap(bookings)
  {
    var i :| 0 <= i < |bookings| && bookings[i] == b;
    var j :| 0 <= j < |bookings| && bookings[j] == c;
    if i < j {
      assert Overlap(bookings[i], bookings[j]);
    } else {
      assert Overlap(bookings[j], bookings[i]);
    }
  }

  /** What reordering the bookings leaves alone in any case. */
  lemma PermutedParts(room: Room, bookings: seq<Booking>, reordered: seq<Booking>, onDate: int)
    requires multiset(bookings) == multiset(reordered)
    ensures Filter(IsUnknown(room), bookings) == [] <==> Filter(IsUnknown(room), reordered) == []
    ensures multiset(Candidates(room, bookings, onDate)) == multiset(Candidates(room, reordered, onDate))
    ensures HasOverlap(Candidates(room, bookings, onDate)) <==> HasOverlap(Candidates(room, reordered, onDate))
    ensures forall b :: b in Candidates(room, bookings, onDate) <==> b in Candidates(room, reordered, onDate)
  {
    FilterPermutation(IsUnknown(room), bookings, reordered);
    assert |multiset(Filter(IsUnknown(room), bookings))| == |Filter(IsUnknown(room), bookings)|;
    assert |multiset(Filter(IsUnknown(room), reordered))| == |Filter(IsUnknown(room), reordered)|;
    FilterPermutation(IsCandidate(room, onDate), bookings, reordered);
    var s, t := Candidates(room, bookings, onDate), Candidates(room, reordered, onDate);
    if HasOverlap(s) {
      OverlapPermutes(s, t);
    }
    if HasOverlap(t) {
      OverlapPermutes(t, s);
    }
    forall b
      ensures b in s <==> b in t
    {
      assert b in s <==> b in multiset(s);
      assert b in t <==> b in multiset(t);
    }
  }

  /** Overnight stays: reordering the bookings changes at most which booking a conflict or an unknown status names. */
  lemma OrderIndependence(room: Room, bookings: seq<Booking>, reordered: seq<Booking>, now: int, policy: Policy,
                          override: Option<ManualOverride>)
    requires multiset(bookings) == multiset(reordered)
    requires forall b :: b in bookings ==> OvernightStay(b)
    ensures var e := EvaluateRoom(room, bookings, now, policy, override);
            var f := EvaluateRoom(room, reordered, now, policy, override);
            && e.phase == f.phase
            && e.(booking := None) == f.(booking := None)
            && (!e.phase.UnknownPhase? && !e.phase.Conflict? ==> e == f)
  {
    var onDate := DateOf(now);
    PermutedParts(room, bookings, reordered, onDate);
    var s, t := Candidates(room, bookings, onDate), Candidates(room, reordered, onDate);
    assert |multiset(s)| == |s| && |multiset(t)| == |t|;
    if !HasOverlap(s) && s != [] {
      SelectedIsFrontrunner(s, policy);
      SelectedIsFrontrunner(t, policy);
      var b, c := SelectRelevantBooking(s, policy).value, SelectRelevantBooking(t, policy).value;
      assert Frontrunner(s, policy, c);
      FrontrunnerIsUnique(s, policy, b, c);
    }
  }

  /** The list leaves open whether the override is in force: it depends on which tied booking comes first. */
  predicate AmbiguousOverride(room: Room, bookings: seq<Booking>, now: int, policy: Policy,
                              override: Option<ManualOverride>)
  {
    var candidates := Candidates(room, bookings, DateOf(now));
    && room.enabled
    && Filter(IsUnknown(room), bookings) == []
    && !HasOverlap(candidates)
    && override.Some?
    && exists x, y :: x in candidates && y in candidates && Frontrunner(candidates, policy, x) && Frontrunner(candidates, policy, y)
         && override.value.IsActive(now, x.id) && !override.value.IsActive(now, y.id)
  }

  ghost predicate PhaseDependsOnOrder(room: Room, bookings: seq<Booking>, now: int, policy: Policy,
                                      override: Option<ManualOverride>)
  {
    exists reordered :: multiset(reordered) == multiset(bookings)
      && EvaluateRoom(room, reordered, now, policy, override).phase
      != EvaluateRoom(room, bookings, now, policy, override).phase
  }

  /** A frontrunner that stands first in the list is selected. */
  lemma FirstFrontrunnerIsSelected(candidates: seq<Booking>, policy: Policy)
    requires candidates != [] && Frontrunner(candidates, policy, candidates[0])
    ensures SelectRelevantBooking(candidates, policy) == Some(candidates[0])
  {
    var b := candidates[0];
    var same := Filter(WithStatus(b.status), candidates);
    assert same == [b] + Filter(WithStatus(b.status), candidates[1..]);
  }

  lemma PhaseWithSelected(room: Room, booking: Booking, other: Booking, now: int, policy: Policy, o: ManualOverride)
    requires o.IsActive(now, booking.id) && !o.IsActive(now, other.id)
    ensures EvaluateSelected(room, Some(booking), now, policy, Some(o)).phase
         != EvaluateSelected(room, Some(other), now, policy, Some(o)).phase
  {
  }

  /** Putting a frontrunner first makes the evaluation follow it. */
  lemma EvaluationFollowsFront(room: Room, bookings: seq<Booking>, x: Booking, now: int, policy: Policy,
                               override: Option<ManualOverride>) returns (reordered: seq<Booking>)
    requires room.enabled && Filter(IsUnknown(room), bookings) == []
    requires !HasOverlap(Candidates(room, bookings, DateOf(now)))
    requires Frontrunner(Candidates(room, bookings, DateOf(now)), policy, x)
    ensures multiset(reordered) == multiset(bookings)
    ensures EvaluateRoom(room, reordered, now, policy, override)
         == EvaluateSelected(room, Some(x), now, policy, override)
  {
    var onDate := DateOf(now);
    reordered := MoveToFront(bookings, x);
    PermutedParts(room, bookings, reordered, onDate);
    var t := Candidates(room, reordered, onDate);
    assert t == [x] + Candidates(room, reordered[1..], onDate);
    FirstFrontrunnerIsSelected(t, policy);
  }

  /** Two frontrunners agree on everything the phase is computed from, except the override. */
  lemma FrontrunnersTie(room: Room, candidates: seq<Booking>, x: Booking, y: Booking, now: int, policy: Policy,
                        override: Option<ManualOverride>)
    requires AllActive(candidates)
    requires Frontrunner(candidates, policy, x) && Frontrunner(candidates, policy, y)
    requires override.Some? ==> (override.value.IsActive(now, x.id) <==> override.value.IsActive(now, y.id))
    ensures EvaluateSelected(room, Some(x), now, policy, override).phase
         == EvaluateSelected(room, Some(y), now, policy, override).phase
  {
  }

  /**
   Same-day stays included, the phase depends on the order of the bookings exactly when tied
   bookings disagree on whether the override applies to them.
   */
  lemma PhaseOrderExactly(room: Room, bookings: seq<Booking>, now: int, policy: Policy,
                          override: Option<ManualOverride>)
    ensures PhaseDependsOnOrder(room, bookings, now, policy, override)
       <==> AmbiguousOverride(room, bookings, now, policy, override)
  {
    var onDate := DateOf(now);
    var s := Candidates(room, bookings, onDate);
    if AmbiguousOverride(room, bookings, now, policy, override) {
      var x, y :| x in s && y in s && Frontrunner(s, policy, x) && Frontrunner(s, policy, y)
        && override.value.IsActive(now, x.id) && !override.value.IsActive(now, y.id);
      var first := EvaluationFollowsFront(room, bookings, x, now, policy, override);
      var second := EvaluationFollowsFront(room, bookings, y, now, policy, override);
      PhaseWithSelected(room, x, y, now, policy, override.value);
    }
    if PhaseDependsOnOrder(room, bookings, now, policy, override) {
      var reordered :| multiset(reordered) == multiset(bookings)
        && EvaluateRoom(room, reordered, now, policy, override).phase
        != EvaluateRoom(room, bookings, now, policy, override).phase;
      PermutedParts(room, bookings, reordered, onDate);
      var t := Candidates(room, reordered, onDate);
      assert |multiset(s)| == |s| && |multiset(t)| == |t|;
      SelectedIsFrontrunner(s, policy);
      SelectedIsFrontrunner(t, policy);
      var x, y := SelectRelevantBooking(s, policy).value, SelectRelevantBooking(t, policy).value;
      assert Frontrunner(s, policy, y);
      if override.Some? ==> (override.value.IsActive(now, x.id) <==> override.value.IsActive(now, y.id)) {
        FrontrunnersTie(room, s, x, y, now, policy, override);
        assert false;
      }
    }
  }

  lemma FirstOfTwo(room: Room, x: Booking, y: Booking, now: int, policy: Policy, override: Option<ManualOverride>)
    requires room.enabled && !Overlap(x, y)
    requires IsCandidate(room, DateOf(now))(x) && IsCandidate(room, DateOf(now))(y)
    requires x.status.Expected? && y.status.Expected? && x.arrival == y.arrival
    ensures EvaluateRoom(room, [x, y], now, policy, override)
         == EvaluateSelected(room, Some(x), now, policy, override)
  {
    FilterTwo(IsCandidate(room, DateOf(now)), x, y);
    FilterTwo(IsUnknown(room), x, y);
    assert Candidates(room, [x, y], DateOf(now)) == [x, y];
    FirstFrontrunnerIsSelected([x, y], policy);
  }

  /** A same-day stay beside an overnight one: with an override bound to one of them, the order decides. */
  lemma SameDayStaysCanBeAmbiguous(room: Room, policy: Policy)
    returns (bookings: seq<Booking>, reordered: seq<Booking>, override: ManualOverride)
    requires room.enabled && room.key != "" && policy.Valid()
    ensures forall b :: b in bookings ==> ValidDates(b)
    ensures override.untilCheckout
    ensures exists b :: b in bookings && Some(b.id) == override.bookingId && override.checkoutAt == Some(CheckoutAt(b, policy))
    ensures multiset(reordered) == multiset(bookings)
    ensures EvaluateRoom(room, bookings, 0, policy, Some(override)).phase.OverridePhase?
    ensures !EvaluateRoom(room, reordered, 0, policy, Some(override)).phase.OverridePhase?
  {
    var dayUse := Booking("a", Expected, 1, 1, None, Some(room.key), "");
    var overnight := Booking("b", Expected, 1, 2, None, Some(room.key), "");
    bookings, reordered := [dayUse, overnight], [overnight, dayUse];
    override := ManualOverride(Manual, Some("a"), HvacOff, None, None, None, Some(CheckoutAt(dayUse, policy)), true);
    assert "a" != "b" by {
      assert "a"[0] != "b"[0];
    }
    FirstOfTwo(room, dayUse, overnight, 0, policy, Some(override));
    FirstOfTwo(room, overnight, dayUse, 0, policy, Some(override));
    PhaseWithSelected(room, dayUse, overnight, 0, policy, override);
  }

  // Stability up to the expiry

  /** With time the candidates only get fewer. */
  lemma LaterCandidates(room: Room, bookings: seq<Booking>, onDate: int, later: int)
    requires onDate <= later
    ensures Candidates(room, bookings, later)
         == Filter(IsCandidate(room, later), Candidates(room, bookings, onDate))
  {
    FilterFilter(IsCandidate(room, later), IsCandidate(room, onDate), bookings);
  }

  lemma {:induction false} FewerBookingsFewerOverlaps(keep: Booking -> bool, s: seq<Booking>)
    requires HasOverlap(Filter(keep, s))
    ensures HasOverlap(s)
  {
    if s != [] {
      var rest := s[1..];
      var kept := Filter(keep, rest);
      assert s == [s[0]] + rest;
      if keep(s[0]) {
        var all := [s[0]] + kept;
        var i, j :| 0 <= i < j < |all| && Overlap(all[i], all[j]);
        if i == 0 {
          assert kept[j - 1] in rest;
          var k :| 0 <= k < |rest| && rest[k] == kept[j - 1];
          assert Overlap(s[0], s[k + 1]);
        } else {
          assert Overlap(kept[i - 1], kept[j - 1]);
          FewerBookingsFewerOverlaps(keep, rest);
          OverlapInTail(s[0], rest);
        }
      } else {
        FewerBookingsFewerOverlaps(keep, rest);
        OverlapInTail(s[0], rest);
      }
    }
  }

  /** Dropping other candidates leaves the selected booking selected. */
  lemma SelectionSurvives(candidates: seq<Booking>, keep: Booking -> bool, policy: Policy)
    requires candidates != [] && AllActive(candidates)
    requires keep(SelectRelevantBooking(candidates, policy).value)
    ensures SelectRelevantBooking(Filter(keep, candidates), policy) == SelectRelevantBooking(candidates, policy)
  {
    hide Filter, Earliest;
    var b := SelectRelevantBooking(candidates, policy).value;
    var fewer := Filter(keep, candidates);
    FilterKeeps(keep, candidates, b);
    SelectedIsFrontrunner(candidates, policy);
    var same := Filter(WithStatus(b.status), candidates);
    FilterCommutes(keep, WithStatus(b.status), candidates);
    FilterKeeps(WithStatus(b.status), candidates, b);
    FilterKeeps(WithStatus(b.status), fewer, b);
    if b.status.CheckedIn? {
      EarliestOfFilter(ByCheckout(policy), keep, same);
    } else {
      if Filter(WithStatus(CheckedIn), fewer) != [] {
        assert Filter(WithStatus(CheckedIn), fewer)[0] in candidates;
      }
      EarliestOfFilter(ByArrival(policy), keep, same);
    }
  }

  lemma {:induction false} FilterCommutes(f: Booking -> bool, g: Booking -> bool, s: seq<Booking>)
    ensures Filter(g, Filter(f, s)) == Filter(f, Filter(g, s))
  {
    if s != [] {
      FilterCommutes(f, g, s[1..]);
      if f(s[0]) {
        assert ([s[0]] + Filter(f, s[1..]))[1..] == Filter(f, s[1..]);
      }
      if g(s[0]) {
        assert ([s[0]] + Filter(g, s[1..]))[1..] == Filter(g, s[1..]);
      }
    }
  }

  predicate Timed(phase: AutomationPhase) {
    phase.Reserved? || phase.PreArrival? || phase.Occupied?
  }

  /** Before the expiry the date has not passed the departure. */
  lemma HorizonKeepsCandidate(booking: Booking, later: int, policy: Policy, expiry: int)
    requires policy.Valid() && ValidDates(booking)
    requires expiry == CheckoutAt(booking, policy) || expiry == LeadStart(booking, policy)
    requires later < expiry
    ensures DateOf(later) <= booking.departure
  {
    assert later < (booking.departure + 1) * DAY;
  }

  /** For one and the same booking, time alone changes nothing before the expiry. */
  lemma SelectedIsStable(room: Room, booking: Booking, now: int, later: int, policy: Policy,
                         override: Option<ManualOverride>)
    requires Timed(EvaluateSelected(room, Some(booking), now, policy, override).phase)
    requires now <= later < EvaluateSelected(room, Some(booking), now, policy, override).expiresAt.value
    ensures EvaluateSelected(room, Some(booking), later, policy, override).(effectiveFrom := 0)
         == EvaluateSelected(room, Some(booking), now, policy, override).(effectiveFrom := 0)
    ensures EvaluateSelected(room, Some(booking), now, policy, override).expiresAt
            in {Some(CheckoutAt(booking, policy)), Some(LeadStart(booking, policy))}
  {
    if override.Some? {
      OverrideStaysInactive(override.value, now, later, booking.id);
    }
  }

  lemma SelectedLater(room: Room, bookings: seq<Booking>, now: int, later: int, policy: Policy)
    requires policy.Valid() && now <= later
    requires !HasOverlap(Candidates(room, bookings, DateOf(now)))
    requires Candidates(room, bookings, DateOf(now)) != []
    requires DateOf(later) <= SelectRelevantBooking(Candidates(room, bookings, DateOf(now)), policy).value.departure
    ensures !HasOverlap(Candidates(room, bookings, DateOf(later)))
    ensures SelectRelevantBooking(Candidates(room, bookings, DateOf(later)), policy)
         == SelectRelevantBooking(Candidates(room, bookings, DateOf(now)), policy)
  {
    hide Filter, HasOverlap, SelectRelevantBooking;
    var candidates := Candidates(room, bookings, DateOf(now));
    var keep := IsCandidate(room, DateOf(later));
    LaterCandidates(room, bookings, DateOf(now), DateOf(later));
    if HasOverlap(Candidates(room, bookings, DateOf(later))) {
      FewerBookingsFewerOverlaps(keep, candidates);
    }
    SelectionSurvives(candidates, keep, policy);
  }

  /** The expiry of a reserved, pre-arrival or occupied room is a horizon: until then nothing but the start moves. */
  lemma ExpiryIsStable(room: Room, bookings: seq<Booking>, now: int, later: int, policy: Policy,
                       override: Option<ManualOverride>)
    requires policy.Valid() && forall b :: b in bookings ==> ValidDates(b)
    requires Timed(EvaluateRoom(room, bookings, now, policy, override).phase)
    requires now <= later < EvaluateRoom(room, bookings, now, policy, override).expiresAt.value
    ensures EvaluateRoom(room, bookings, later, policy, override).(effectiveFrom := 0)
         == EvaluateRoom(room, bookings, now, policy, override).(effectiveFrom := 0)
  {
    var candidates := Candidates(room, bookings, DateOf(now));
    assert candidates != [];
    var b := SelectRelevantBooking(candidates, policy).value;
    assert b in bookings;
    SelectedIsStable(room, b, now, later, policy, override);
    HorizonKeepsCandidate(b, later, policy, EvaluateRoom(room, bookings, now, policy, override).expiresAt.value);
    SelectedLater(room, bookings, now, later, policy);
  }

  // The phase, from the bookings and the clock

  /** The override rules the room for the booking: until its own checkout boundary, or until it expires. */
  predicate Rules(override: Option<ManualOverride>, now: int, bookingId: string) {
    && override.Some?
    && !override.value.controlMode.Automatic?
    && if override.value.untilCheckout then
         && (override.value.bookingId == None || override.value.bookingId == Some(bookingId))
         && override.value.checkoutAt.Some? && now < override.value.checkoutAt.value
       else
         override.value.expiresAt.Some? && now < override.value.expiresAt.value
  }

  /** One answer can be given for the room: it is automated, no unknown booking matches it, and its stays do not collide. */
  ghost predicate Decided(room: Room, bookings: seq<Booking>, now: int) {
    && room.enabled
    && (forall x :: x in bookings ==> !IsUnknown(room)(x))
    && !TwoStaysCollide(room, bookings, DateOf(now))
  }

  lemma DecidedEvaluation(room: Room, bookings: seq<Booking>, now: int, policy: Policy, override: Option<ManualOverride>)
    requires Decided(room, bookings, now)
    ensures EvaluateRoom(room, bookings, now, policy, override)
         == EvaluateSelected(room, SelectRelevantBooking(Candidates(room, bookings, DateOf(now)), policy), now, policy, override)
  {
    CollisionsSurviveFilter(room, bookings, DateOf(now));
    FilterNone(IsUnknown(room), bookings);
  }

  /** The phase that a stay gives to its room by the clock, with the instant until which it does. */
  ghost predicate ByTheClock(e: Evaluation, b: Booking, now: int, policy: Policy) {
    var checkout := b.departure * DAY + policy.checkOut;
    var preparation := b.arrival * DAY + policy.checkIn - policy.leadMinutes * MINUTE;
    && (e.phase.CheckoutDue? <==> b.status.CheckedIn? && checkout <= now)
    && (e.phase.Occupied? <==> b.status.CheckedIn? && now < checkout)
    && (e.phase.PreArrival? <==> b.status.Expected? && preparation <= now)
    && (e.phase.Reserved? <==> b.status.Expected? && now < preparation)
    && e.effectiveFrom == (if e.phase.PreArrival? then preparation else now)
    && e.expiresAt == (if e.phase.CheckoutDue? then None else if e.phase.Reserved? then Some(preparation) else Some(checkout))
  }

  lemma SelectedByTheClock(room: Room, b: Booking, now: int, policy: Policy, override: Option<ManualOverride>)
    requires b.ActiveForAutomation()
    ensures var e := EvaluateSelected(room, Some(b), now, policy, override);
            && e.booking == Some(b)
            && (e.phase.OverridePhase? <==> Rules(override, now, b.id))
            && (e.phase.OverridePhase? ==> e.expiresAt == override.value.expiresAt && e.effectiveFrom == now)
            && (!e.phase.OverridePhase? ==> ByTheClock(e, b, now, policy))
  {
  }

  /**
   The phase of a decided room with a stay. It is that of a front-runner: MANUAL_OVERRIDE if and only if the override
   rules for it. Otherwise every front-runner gives the same phase: checked in, OCCUPIED before the checkout instant and
   CHECKOUT_DUE from it on; expected, RESERVED before the preparation instant and PRE_ARRIVAL from it on.
   */
  lemma PhaseTable(room: Room, bookings: seq<Booking>, now: int, policy: Policy, override: Option<ManualOverride>, b: Booking)
    requires Decided(room, bookings, now) && Frontrunner(Candidates(room, bookings, DateOf(now)), policy, b)
    ensures var e := EvaluateRoom(room, bookings, now, policy, override);
            && e.booking.Some? && Frontrunner(Candidates(room, bookings, DateOf(now)), policy, e.booking.value)
            && (e.phase.OverridePhase? <==> Rules(override, now, e.booking.value.id))
            && (e.phase.OverridePhase? ==> e.expiresAt == override.value.expiresAt && e.effectiveFrom == now)
            && (!e.phase.OverridePhase? ==> e.booking.value.status == b.status)
            && (e.phase.CheckoutDue? || e.phase.Occupied? || e.phase.PreArrival? || e.phase.Reserved? || e.phase.OverridePhase?)
    ensures var e := EvaluateRoom(room, bookings, now, policy, override);
            !e.phase.OverridePhase? && e.booking == Some(b) ==> ByTheClock(e, b, now, policy)
    ensures var e := EvaluateRoom(room, bookings, now, policy, override);
            !e.phase.OverridePhase? ==>
              && (e.phase.CheckoutDue? <==> b.status.CheckedIn? && b.departure * DAY + policy.checkOut <= now)
              && (e.phase.Occupied? <==> b.status.CheckedIn? && now < b.departure * DAY + policy.checkOut)
              && (e.phase.PreArrival? <==> b.status.Expected? && b.arrival * DAY + policy.checkIn - policy.leadMinutes * MINUTE <= now)
              && (e.phase.Reserved? <==> b.status.Expected? && now < b.arrival * DAY + policy.checkIn - policy.leadMinutes * MINUTE)
  {
    hide EvaluateRoom, EvaluateSelected, SelectRelevantBooking, Filter;
    var candidates := Candidates(room, bookings, DateOf(now));
    assert candidates != [] && AllActive(candidates);
    SelectedIsFrontrunner(candidates, policy);
    DecidedEvaluation(room, bookings, now, policy, override);
    SelectedByTheClock(room, SelectRelevantBooking(candidates, policy).value, now, policy, override);
  }

  /** With overnight stays there is one front-runner, and it is the booking of the evaluation. */
  lemma OvernightTable(room: Room, bookings: seq<Booking>, now: int, policy: Policy, override: Option<ManualOverride>, b: Booking)
    requires Decided(room, bookings, now) && Frontrunner(Candidates(room, bookings, DateOf(now)), policy, b)
    requires forall x :: x in bookings ==> OvernightStay(x)
    ensures var e := EvaluateRoom(room, bookings, now, policy, override);
            && e.booking == Some(b)
            && (e.phase.OverridePhase? <==> Rules(override, now, b.id))
            && (!e.phase.OverridePhase? ==> ByTheClock(e, b, now, policy))
  {
    hide EvaluateRoom, Frontrunner, Filter, HasOverlap;
    PhaseTable(room, bookings, now, policy, override, b);
    CollisionsSurviveFilter(room, bookings, DateOf(now));
    FrontrunnerIsUnique(Candidates(room, bookings, DateOf(now)), policy, b, EvaluateRoom(room, bookings, now, policy, override).booking.value);
  }

  /** A decided room is VACANT if and only if no booking is a stay in it that has not departed. */
  lemma VacantExactly(room: Room, bookings: seq<Booking>, now: int, policy: Policy, override: Option<ManualOverride>)
    requires Decided(room, bookings, now)
    ensures var e := EvaluateRoom(room, bookings, now, policy, override);
            && (e.phase.Vacant? <==> forall x :: x in bookings ==> !IsCandidate(room, DateOf(now))(x))
            && (e.phase.Vacant? ==> e.booking.None? && e.expiresAt.None? && e.effectiveFrom == now)
  {
    hide EvaluateRoom, Filter;
    var candidates := Candidates(room, bookings, DateOf(now));
    DecidedEvaluation(room, bookings, now, policy, override);
    if candidates == [] {
      forall x | x in bookings
        ensures !IsCandidate(room, DateOf(now))(x)
      {
        if IsCandidate(room, DateOf(now))(x) {
          FilterKeeps(IsCandidate(room, DateOf(now)), bookings, x);
        }
      }
    } else {
      assert candidates[0] in candidates;
      SelectedByTheClock(room, SelectRelevantBooking(candidates, policy).value, now, policy, override);
    }
  }

  /** A room that is not decided is DISABLED, UNKNOWN or in CONFLICT, in this order of precedence. */
  lemma UndecidedTable(room: Room, bookings: seq<Booking>, now: int, policy: Policy, override: Option<ManualOverride>)
    ensures var e := EvaluateRoom(room, bookings, now, policy, override);
            var unknown := exists x :: x in bookings && IsUnknown(room)(x);
            && (e.phase.Disabled? <==> !room.enabled)
            && (e.phase.UnknownPhase? <==> room.enabled && unknown)
            && (e.phase.Conflict? <==> room.enabled && !unknown && TwoStaysCollide(room, bookings, DateOf(now)))
            && (e.phase.UnknownPhase? ==> e.booking.Some? && e.booking.value in bookings && IsUnknown(room)(e.booking.value))
            && (e.needsAttention <==> e.phase.UnknownPhase? || e.phase.Conflict?)
  {
    hide EvaluateSelected;
    ConflictExactly(room, bookings, now, policy, override);
    var unknown := Filter(IsUnknown(room), bookings);
    if exists x :: x in bookings && IsUnknown(room)(x) {
      var x :| x in bookings && IsUnknown(room)(x);
      FilterKeeps(IsUnknown(room), bookings, x);
    } else {
      FilterNone(IsUnknown(room), bookings);
    }
    if unknown != [] {
      assert unknown[0] in unknown;
    }
    QuietSelection(room, SelectRelevantBooking(Candidates(room, bookings, DateOf(now)), policy), now, policy, override);
  }

  lemma QuietSelection(room: Room, selected: Option<Booking>, now: int, policy: Policy, override: Option<ManualOverride>)
    ensures var e := EvaluateSelected(room, selected, now, policy, override);
            !e.needsAttention && !e.phase.Disabled? && !e.phase.UnknownPhase? && !e.phase.Conflict?
  {
  }
}
