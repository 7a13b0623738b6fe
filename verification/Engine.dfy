/**
 Deriving the desired intent from a room state (app/policy/engine.py), and when the
 validators of the intent accept what is derived.
 */
module Engine {
  import opened Domain
  import opened Sequences
  import opened StateMachine

  /** Deriving an intent gives none, an intent, or a validation error that the caller sees as an exception. */
  datatype Derivation = NoIntent | Raised | Derived(intent: Intent)

  predicate Suppressed(phase: AutomationPhase) {
    phase.AwaitingAssignment? || phase.Conflict? || phase.Disabled? || phase.UnknownPhase?
  }

  const OffHvac := HvacIntent(false, HvacOff, None)

  function BuildIntent(state: Evaluation, controlMode: ControlMode, hvac: HvacIntent, waterHeater: bool,
                       convectors: bool, reason: Reason, correlationId: int): (d: Derivation)
    ensures d.Derived? ==> ValidIntent(d.intent) && d.intent.version == 1
  {
    var key := if state.roomKey.Some? then state.roomKey.value else "";
    var intent := Intent(key, 1, state.phase, controlMode, state.effectiveFrom, state.expiresAt, hvac,
                         waterHeater, convectors, reason, correlationId);
    if ValidIntent(intent) then Derived(intent) else Raised
  }

  function DeriveRoomIntent(state: Evaluation, policy: Policy, override: Option<ManualOverride>,
                            correlationId: int): (d: Derivation)
    ensures d.Derived? ==> ValidIntent(d.intent) && Some(d.intent.roomKey) == state.roomKey
  {
    if state.roomKey.None? then
      NoIntent
    else if state.phase.OverridePhase? && override.Some? then
      var o := override.value;
      var target := if o.target.Some? then Some(policy.ClampTemperature(o.target.value)) else None;
      BuildIntent(state, o.controlMode, HvacIntent(!o.hvacMode.HvacOff?, o.hvacMode, target),
                  o.waterHeater == Some(true), !o.hvacMode.HvacOff?, state.reason, correlationId)
    else if Suppressed(state.phase) then
      BuildIntent(state, ForcedOff, OffHvac, false, false, state.reason, correlationId)
    else if state.phase.Vacant? then
      BuildIntent(state, Automatic, HvacIntent(true, Heat, Some(policy.vacantSetback)), false, false,
                  state.reason, correlationId)
    else if state.phase.PreArrival? || state.phase.Reserved? then
      var preArrival := state.phase.PreArrival?;
      BuildIntent(state, Automatic,
                  if preArrival then HvacIntent(true, Heat, Some(policy.heatingTarget)) else OffHvac,
                  preArrival && policy.waterHeaterPreArrival,
                  preArrival && policy.convectorsPreArrival,
                  state.reason, correlationId)
    else if state.phase.Occupied? || state.phase.CheckoutDue? then
      BuildIntent(state, Automatic,
                  HvacIntent(true, Auto, Some(policy.ClampTemperature(policy.heatingTarget))), true, true,
                  state.reason, correlationId)
    else
      BuildIntent(state, ForcedOff, OffHvac, false, false, UnhandledPhaseSuppressed, correlationId)
  }

  /** An override whose HVAC mode is off exactly when it has no target. */
  predicate CoherentOverride(o: ManualOverride) {
    o.hvacMode.HvacOff? <==> o.target.None?
  }

  /** A timed override is active only before its expiry, one until checkout carries none. */
  predicate TimedOrBound(o: ManualOverride) {
    o.untilCheckout ==> o.expiresAt.None?
  }

  predicate AcceptedOverride(override: Option<ManualOverride>) {
    override.Some? ==> CoherentOverride(override.value) && TimedOrBound(override.value)
  }

  lemma WindowDecides(e: Evaluation, now: int, policy: Policy, override: Option<ManualOverride>, correlationId: int)
    requires e.roomKey.Some? && e.roomKey.value != ""
    requires WindowShape(e, now, policy, override) && AcceptedOverride(override)
    ensures var d := DeriveRoomIntent(e, policy, override, correlationId);
            && !d.NoIntent?
            && (d.Raised? <==>
                e.phase.PreArrival? && LeadStart(e.booking.value, policy) >= CheckoutAt(e.booking.value, policy))
  {
  }

  /**
   The derivation of an evaluated room raises exactly when the room is in pre-arrival for a stay
   whose preparation window does not open before its checkout.
   */
  lemma DerivationRaisesExactly(room: Room, bookings: seq<Booking>, now: int, policy: Policy,
                                override: Option<ManualOverride>, correlationId: int)
    requires room.key != "" && AcceptedOverride(override)
    ensures var e := EvaluateRoom(room, bookings, now, policy, override);
            var d := DeriveRoomIntent(e, policy, override, correlationId);
            && !d.NoIntent?
            && (d.Raised? <==>
                && e.phase.PreArrival?
                && e.booking.Some?
                && LeadStart(e.booking.value, policy) >= CheckoutAt(e.booking.value, policy))
  {
    EvaluationShape(room, bookings, now, policy, override);
    WindowDecides(EvaluateRoom(room, bookings, now, policy, override), now, policy, override, correlationId);
  }

  /** Overnight stays never make the derivation raise. */
  lemma OvernightStaysDerive(room: Room, bookings: seq<Booking>, now: int, policy: Policy,
                             override: Option<ManualOverride>, correlationId: int)
    requires room.key != "" && policy.Valid() && AcceptedOverride(override)
    requires forall b :: b in bookings ==> OvernightStay(b)
    ensures DeriveRoomIntent(EvaluateRoom(room, bookings, now, policy, override), policy, override, correlationId).Derived?
  {
    EvaluationShape(room, bookings, now, policy, override);
    DerivationRaisesExactly(room, bookings, now, policy, override, correlationId);
    var booking := EvaluateRoom(room, bookings, now, policy, override).booking;
    if booking.Some? {
      NightBeforeCheckout(booking.value, policy);
    }
  }

  lemma NightBeforeCheckout(booking: Booking, policy: Policy)
    requires policy.Valid() && OvernightStay(booking)
    ensures LeadStart(booking, policy) < CheckoutAt(booking, policy)
  {
    assert (booking.arrival + 1) * DAY <= booking.departure * DAY;
  }

  /** The default policy (check-in 15:00, check-out 11:00, lead 240 minutes) raises for a same-day stay. */
  lemma SameDayStayRaises(room: Room, policy: Policy) returns (bookings: seq<Booking>, now: int)
    requires room.enabled && room.key != ""
    requires policy.checkIn == 15 * 60 * MINUTE && policy.checkOut == 11 * 60 * MINUTE && policy.leadMinutes == 240
    ensures forall b :: b in bookings ==> ValidDates(b)
    ensures DeriveRoomIntent(EvaluateRoom(room, bookings, now, policy, None), policy, None, 0).Raised?
  {
    var dayUse := Booking("a", Expected, 1, 1, None, Some(room.key), "");
    bookings, now := [dayUse], DAY + policy.checkOut;
    FilterOne(IsCandidate(room, DateOf(now)), dayUse);
    FilterOne(IsUnknown(room), dayUse);
    FirstFrontrunnerIsSelected(bookings, policy);
    DerivationRaisesExactly(room, bookings, now, policy, None, 0);
  }

  lemma SameWindowSameIntent(before: Evaluation, after: Evaluation, later: int, policy: Policy,
                             override: Option<ManualOverride>, correlationId: int, laterCorrelationId: int)
    requires Timed(before.phase)
    requires after.(effectiveFrom := 0) == before.(effectiveFrom := 0)
    requires WindowShape(after, later, policy, override)
    requires DeriveRoomIntent(before, policy, override, correlationId).Derived?
    requires after.phase.PreArrival? ==> after.effectiveFrom == before.effectiveFrom
    ensures var old_ := DeriveRoomIntent(before, policy, override, correlationId);
            var new_ := DeriveRoomIntent(after, policy, override, laterCorrelationId);
            && new_.Derived?
            && new_.intent.(effectiveFrom := 0, correlationId := 0) == old_.intent.(effectiveFrom := 0, correlationId := 0)
  {
  }

  /** Within the horizon of the expiry the derived intent changes in nothing but its start. */
  lemma DerivationIsStable(room: Room, bookings: seq<Booking>, now: int, later: int, policy: Policy,
                           override: Option<ManualOverride>, correlationId: int, laterCorrelationId: int)
    requires policy.Valid() && room.key != "" && forall b :: b in bookings ==> ValidDates(b)
    requires Timed(EvaluateRoom(room, bookings, now, policy, override).phase)
    requires now <= later < EvaluateRoom(room, bookings, now, policy, override).expiresAt.value
    requires DeriveRoomIntent(EvaluateRoom(room, bookings, now, policy, override), policy, override, correlationId).Derived?
    ensures var before := DeriveRoomIntent(EvaluateRoom(room, bookings, now, policy, override), policy, override, correlationId);
            var after := DeriveRoomIntent(EvaluateRoom(room, bookings, later, policy, override), policy, override, laterCorrelationId);
            && after.Derived?
            && after.intent.(effectiveFrom := 0, correlationId := 0) == before.intent.(effectiveFrom := 0, correlationId := 0)
  {
    ExpiryIsStable(room, bookings, now, later, policy, override);
    EvaluationShape(room, bookings, now, policy, override);
    EvaluationShape(room, bookings, later, policy, override);
    SameWindowSameIntent(EvaluateRoom(room, bookings, now, policy, override),
                         EvaluateRoom(room, bookings, later, policy, override),
                         later, policy, override, correlationId, laterCorrelationId);
  }

  // What derived intents switch on

  /** The list gives no single answer for the room, or the room is not to be automated. */
  ghost predicate Undecided(room: Room, bookings: seq<Booking>, now: int) {
    || !room.enabled
    || (exists b :: b in bookings && IsUnknown(room)(b))
    || TwoStaysCollide(room, bookings, DateOf(now))
  }

  /** An undecided room is forced off, whatever override is stored for it. */
  lemma UndecidedRoomIsForcedOff(room: Room, bookings: seq<Booking>, now: int, policy: Policy,
                                 override: Option<ManualOverride>, correlationId: int)
    requires room.key != "" && Undecided(room, bookings, now)
    ensures var d := DeriveRoomIntent(EvaluateRoom(room, bookings, now, policy, override), policy, override, correlationId);
            && d.Derived?
            && d.intent.controlMode.ForcedOff? && d.intent.hvac == OffHvac
            && !d.intent.waterHeater && !d.intent.convectors && d.intent.expiresAt.None?
  {
    hide DeriveRoomIntent, EvaluateRoom;
    ConflictExactly(room, bookings, now, policy, override);
    if !room.enabled || exists b :: b in bookings && IsUnknown(room)(b) {
      UndecidedPhase(room, bookings, now, policy, override);
    }
    EvaluationShape(room, bookings, now, policy, override);
    SuppressedIsOff(EvaluateRoom(room, bookings, now, policy, override), now, policy, override, correlationId);
  }

  lemma UndecidedPhase(room: Room, bookings: seq<Booking>, now: int, policy: Policy, override: Option<ManualOverride>)
    requires !room.enabled || exists b :: b in bookings && IsUnknown(room)(b)
    ensures Suppressed(EvaluateRoom(room, bookings, now, policy, override).phase)
    ensures EvaluateRoom(room, bookings, now, policy, override).roomKey == Some(room.key)
  {
    if room.enabled {
      var b :| b in bookings && IsUnknown(room)(b);
      FilterKeeps(IsUnknown(room), bookings, b);
    }
  }

  lemma SuppressedIsOff(e: Evaluation, now: int, policy: Policy, override: Option<ManualOverride>, correlationId: int)
    requires Suppressed(e.phase) && e.roomKey.Some? && e.roomKey.value != "" && WindowShape(e, now, policy, override)
    ensures var d := DeriveRoomIntent(e, policy, override, correlationId);
            && d.Derived?
            && d.intent.controlMode.ForcedOff? && d.intent.hvac == OffHvac
            && !d.intent.waterHeater && !d.intent.convectors && d.intent.expiresAt.None?
  {
  }

  /** The room has a guest, or one who is due soon, or the override in force is for the selected booking. */
  predicate Wanted(booking: Booking, now: int, policy: Policy, override: Option<ManualOverride>) {
    || booking.status.CheckedIn?
    || (booking.status.Expected? && LeadStart(booking, policy) <= now)
    || (override.Some? && override.value.IsActive(now, booking.id))
  }

  /** Water and convectors are switched on only for a booking of this room that has not departed and is wanted now. */
  lemma NothingIsHeatedForNobody(room: Room, bookings: seq<Booking>, now: int, policy: Policy,
                                 override: Option<ManualOverride>, correlationId: int)
    requires DeriveRoomIntent(EvaluateRoom(room, bookings, now, policy, override), policy, override, correlationId).Derived?
    requires var intent := DeriveRoomIntent(EvaluateRoom(room, bookings, now, policy, override), policy, override, correlationId).intent;
             intent.waterHeater || intent.convectors
    ensures exists b :: b in bookings && IsCandidate(room, DateOf(now))(b) && Wanted(b, now, policy, override)
  {
    hide DeriveRoomIntent, EvaluateSelected;
    var candidates := Candidates(room, bookings, DateOf(now));
    var e := EvaluateRoom(room, bookings, now, policy, override);
    HeatedPhases(e, policy, override, correlationId);
    if candidates != [] {
      var b := SelectRelevantBooking(candidates, policy).value;
      WantedPhases(room, b, now, policy, override);
    } else {
      SelectedShape(room, None, now, policy, override);
      EmptyRoomPhase(room, now, policy, override);
    }
  }

  lemma EmptyRoomPhase(room: Room, now: int, policy: Policy, override: Option<ManualOverride>)
    ensures EvaluateSelected(room, None, now, policy, override).phase.Vacant?
  {
  }

  lemma HeatedPhases(e: Evaluation, policy: Policy, override: Option<ManualOverride>, correlationId: int)
    requires DeriveRoomIntent(e, policy, override, correlationId).Derived?
    requires DeriveRoomIntent(e, policy, override, correlationId).intent.waterHeater
          || DeriveRoomIntent(e, policy, override, correlationId).intent.convectors
    ensures e.phase in {OverridePhase, PreArrival, Occupied, CheckoutDue}
  {
  }

  lemma WantedPhases(room: Room, b: Booking, now: int, policy: Policy, override: Option<ManualOverride>)
    requires EvaluateSelected(room, Some(b), now, policy, override).phase in {OverridePhase, PreArrival, Occupied, CheckoutDue}
    ensures Wanted(b, now, policy, override)
  {
  }

  predicate InRange(policy: Policy, target: real) {
    policy.minimumTarget <= target <= policy.maximumTarget
  }

  /**
   A derived target lies in the policy's range exactly when the two targets that are not clamped do: the setback
   of a vacant room, and the heating target of a room that is prepared for an arrival.
   */
  lemma TargetInRangeExactly(state: Evaluation, policy: Policy, override: Option<ManualOverride>, correlationId: int)
    requires policy.Valid() && DeriveRoomIntent(state, policy, override, correlationId).Derived?
    ensures var target := DeriveRoomIntent(state, policy, override, correlationId).intent.hvac.target;
            (target.Some? ==> InRange(policy, target.value)) <==>
            && (state.phase.Vacant? ==> InRange(policy, policy.vacantSetback))
            && (state.phase.PreArrival? ==> InRange(policy, policy.heatingTarget))
  {
  }

  // The intent, from the bookings and the clock

  /** The point of the policy's range that is nearest to the value. */
  predicate Nearest(policy: Policy, value: real, point: real) {
    && InRange(policy, point)
    && (value < point ==> point == policy.minimumTarget)
    && (point < value ==> point == policy.maximumTarget)
  }

  predicate SwitchedOff(intent: Intent) {
    intent.hvac == HvacIntent(false, HvacOff, None) && !intent.waterHeater && !intent.convectors
  }

  /** The intent is what the override says, with its target moved into the range. */
  predicate FollowsOverride(intent: Intent, o: ManualOverride, policy: Policy) {
    && intent.controlMode == o.controlMode
    && intent.hvac.mode == o.hvacMode
    && (intent.hvac.enabled <==> !o.hvacMode.HvacOff?)
    && (intent.convectors <==> !o.hvacMode.HvacOff?)
    && (intent.hvac.target.Some? <==> o.target.Some?)
    && (o.target.Some? ==> Nearest(policy, o.target.value, intent.hvac.target.value))
    && (intent.waterHeater <==> o.waterHeater == Some(true))
  }

  /** Someone lives in the room: heating and cooling to the heating target, within the range, and everything on. */
  predicate ForGuest(intent: Intent, policy: Policy) {
    && intent.controlMode.Automatic?
    && intent.hvac.enabled && intent.hvac.mode.Auto?
    && intent.hvac.target.Some? && Nearest(policy, policy.heatingTarget, intent.hvac.target.value)
    && intent.waterHeater && intent.convectors
  }

  /** The room is being prepared: heating to the heating target, the rest as the policy says. */
  predicate ForArrival(intent: Intent, policy: Policy) {
    && intent.controlMode.Automatic?
    && intent.hvac == HvacIntent(true, Heat, Some(policy.heatingTarget))
    && (intent.waterHeater <==> policy.waterHeaterPreArrival)
    && (intent.convectors <==> policy.convectorsPreArrival)
  }

  /** Nobody is there or expected soon: heating to the setback, and the rest off. */
  predicate ForNobody(intent: Intent, policy: Policy) {
    && intent.controlMode.Automatic?
    && intent.hvac == HvacIntent(true, Heat, Some(policy.vacantSetback))
    && !intent.waterHeater && !intent.convectors
  }

  /** What is derived in each phase. */
  lemma IntentOfPhase(e: Evaluation, policy: Policy, override: Option<ManualOverride>, correlationId: int)
    requires policy.Valid() && DeriveRoomIntent(e, policy, override, correlationId).Derived?
    ensures var intent := DeriveRoomIntent(e, policy, override, correlationId).intent;
            && Some(intent.roomKey) == e.roomKey && intent.phase == e.phase && intent.correlationId == correlationId
            && intent.effectiveFrom == e.effectiveFrom && intent.expiresAt == e.expiresAt
            && (e.phase.OverridePhase? && override.Some? ==> FollowsOverride(intent, override.value, policy))
            && (e.phase.Occupied? || e.phase.CheckoutDue? ==> ForGuest(intent, policy))
            && (e.phase.PreArrival? ==> ForArrival(intent, policy))
            && (e.phase.Reserved? ==> SwitchedOff(intent) && intent.controlMode.Automatic?)
            && (e.phase.Vacant? ==> ForNobody(intent, policy))
            && (Suppressed(e.phase) ==> SwitchedOff(intent) && intent.controlMode.ForcedOff?)
  {
  }

  /**
   The intent of a decided room with a stay, for any front-runner: the override's where it rules; otherwise everything
   for a guest who is checked in, a preparation from the preparation instant on, and nothing before it.
   */
  lemma IntentTable(room: Room, bookings: seq<Booking>, now: int, policy: Policy, override: Option<ManualOverride>, correlationId: int,
                    b: Booking)
    requires policy.Valid() && Decided(room, bookings, now) && Frontrunner(Candidates(room, bookings, DateOf(now)), policy, b)
    requires DeriveRoomIntent(EvaluateRoom(room, bookings, now, policy, override), policy, override, correlationId).Derived?
    ensures var e := EvaluateRoom(room, bookings, now, policy, override);
            var intent := DeriveRoomIntent(e, policy, override, correlationId).intent;
            var preparation := b.arrival * DAY + policy.checkIn - policy.leadMinutes * MINUTE;
            && e.booking.Some?
            && if Rules(override, now, e.booking.value.id) then FollowsOverride(intent, override.value, policy)
               else if b.status.CheckedIn? then ForGuest(intent, policy)
               else if preparation <= now then ForArrival(intent, policy)
               else SwitchedOff(intent)
  {
    hide EvaluateRoom, DeriveRoomIntent, Frontrunner, FollowsOverride, ForGuest, ForArrival, SwitchedOff;
    PhaseTable(room, bookings, now, policy, override, b);
    IntentOfPhase(EvaluateRoom(room, bookings, now, policy, override), policy, override, correlationId);
    FrontrunnerIsActive(room, bookings, now, policy, b);
  }

  lemma FrontrunnerIsActive(room: Room, bookings: seq<Booking>, now: int, policy: Policy, b: Booking)
    requires Frontrunner(Candidates(room, bookings, DateOf(now)), policy, b)
    ensures b.status.CheckedIn? || b.status.Expected?
  {
  }

  /** A decided room without a stay is heated to the setback, whatever override is stored for it. */
  lemma VacantIntent(room: Room, bookings: seq<Booking>, now: int, policy: Policy, override: Option<ManualOverride>, correlationId: int)
    requires policy.Valid() && room.key != "" && Decided(room, bookings, now)
    requires forall x :: x in bookings ==> !IsCandidate(room, DateOf(now))(x)
    ensures var d := DeriveRoomIntent(EvaluateRoom(room, bookings, now, policy, override), policy, override, correlationId);
            d.Derived? && ForNobody(d.intent, policy)
  {
    hide EvaluateRoom, DeriveRoomIntent, ForNobody;
    VacantExactly(room, bookings, now, policy, override);
    VacantDerives(EvaluateRoom(room, bookings, now, policy, override), policy, override, correlationId);
    IntentOfPhase(EvaluateRoom(room, bookings, now, policy, override), policy, override, correlationId);
  }

  lemma VacantDerives(e: Evaluation, policy: Policy, override: Option<ManualOverride>, correlationId: int)
    requires e.phase.Vacant? && e.roomKey.Some? && e.roomKey.value != "" && e.expiresAt.None?
    ensures DeriveRoomIntent(e, policy, override, correlationId).Derived?
  {
  }
}
