/**
 Manual room control (app/policy/control.py): commands build override rows on top of the override in
 force, and every row they build can be turned into an intent.
 */
module Control {
  import opened Domain
  import opened Engine
  import opened Registers
  import opened Store

  /** A command's field with its payload as parsed; None where the parser of the payload raises ValueError. */
  datatype Command =
    | ReturnToAutomatic
    | SetMode(mode: Option<ControlMode>)
    | SetHvacMode(hvacMode: Option<HvacMode>)
    | SetTemperature(target: Option<real>)
    | SetDuration(duration: Option<Duration>)
    | SetWaterHeater(on: Option<bool>)
    | UnsupportedField

  datatype Refusal =
    | UnknownRoom
    | BadField
    | BadPayload
    | DurationNeedsOverride
    | DurationTooLong
    | NoCurrentReservation

  datatype Draft = Draft(
    controlMode: ControlMode,
    hvacMode: HvacMode,
    target: Option<real>,
    waterHeater: Option<bool>,
    duration: Duration)

  const DEFAULT_DURATION := Minutes60
  const DefaultDraft := Draft(Automatic, HvacOff, None, Some(false), DEFAULT_DURATION)

  datatype Redraft = Drafted(draft: Draft) | NotDrafted(refusal: Refusal)

  datatype BuiltRow = Built(row: OverrideRow) | NotBuilt(refusal: Refusal)

  function Minutes(duration: Duration): int {
    match duration
    case Minutes60 => 60
    case Minutes240 => 240
    case Minutes720 => 720
    case UntilCheckout => 0
  }

  // Reading override rows

  predicate RowIsActive(row: OverrideRow, now: int) {
    if row.controlMode.Automatic? then false
    else if row.untilCheckout then row.bookingId.Some? && row.checkoutAt.Some? && row.checkoutAt.value > now
    else row.expiresAt.Some? && row.expiresAt.value > now
  }

  function DurationFromRow(row: OverrideRow): Duration {
    if row.untilCheckout then UntilCheckout
    else if row.expiresAt.None? then DEFAULT_DURATION
    else
      var minutes := RoundHalfEven((row.expiresAt.value - row.startsAt) as real / MINUTE as real);
      if minutes == 60 then Minutes60
      else if minutes == 240 then Minutes240
      else if minutes == 720 then Minutes720
      else DEFAULT_DURATION
  }

  function CurrentDraft(record: RoomRecord, now: int): Draft {
    var latest := LatestOverride(record);
    if latest.None? || latest.value.controlMode.Automatic? || !RowIsActive(latest.value, now) then DefaultDraft
    else Draft(latest.value.controlMode, latest.value.hvacMode, latest.value.target, latest.value.waterHeater,
               DurationFromRow(latest.value))
  }

  /** The override an evaluation sees; bookings are never deleted, so a bound booking is always found. */
  function ManualOverrideFromRow(row: OverrideRow): Option<ManualOverride> {
    if row.controlMode.Automatic? then None
    else Some(ManualOverride(row.controlMode, if row.untilCheckout then row.bookingId else None, row.hvacMode, row.target,
                             row.waterHeater, row.expiresAt, row.checkoutAt, row.untilCheckout))
  }

  function ActiveOverride(latest: Option<OverrideRow>, now: int): Option<ManualOverride> {
    if latest.None? || !RowIsActive(latest.value, now) then None else ManualOverrideFromRow(latest.value)
  }

  // Building override rows

  /** Python's "target or default": a missing target and a target of zero both give the default. */
  function TargetOr(target: Option<real>, default_: real): real {
    if target.Some? && target.value != 0.0 then target.value else default_
  }

  /** What a command makes of the draft in force. */
  function RedraftFor(command: Command, base: Draft, policy: Policy): Redraft {
    match command
    case ReturnToAutomatic => Drafted(Draft(Automatic, HvacOff, None, None, DEFAULT_DURATION))
    case SetMode(None) => NotDrafted(BadPayload)
    case SetMode(Some(Automatic)) => Drafted(Draft(Automatic, HvacOff, None, None, base.duration))
    case SetMode(Some(ForcedOff)) => Drafted(Draft(ForcedOff, HvacOff, None, Some(false), base.duration))
    case SetMode(Some(Manual)) =>
      Drafted(base.(controlMode := Manual,
                    hvacMode := if base.hvacMode.HvacOff? then Auto else base.hvacMode,
                    target := Some(TargetOr(base.target, policy.heatingTarget))))
    case SetHvacMode(None) => NotDrafted(BadPayload)
    case SetHvacMode(Some(mode)) =>
      Drafted(base.(controlMode := Manual,
                    hvacMode := mode,
                    target := if mode.HvacOff? then None else Some(TargetOr(base.target, policy.heatingTarget))))
    case SetTemperature(None) => NotDrafted(BadPayload)
    case SetTemperature(Some(value)) =>
      Drafted(base.(controlMode := Manual,
                    hvacMode := if base.hvacMode.HvacOff? then Heat else base.hvacMode,
                    target := Some(policy.ClampTemperature(value))))
    case SetDuration(duration) =>
      if base.controlMode.Automatic? then NotDrafted(DurationNeedsOverride)
      else if duration.None? then NotDrafted(BadPayload)
      else if !duration.value.UntilCheckout? && Minutes(duration.value) > policy.manualMaxMinutes then NotDrafted(DurationTooLong)
      else Drafted(base.(duration := duration.value))
    case SetWaterHeater(None) => NotDrafted(BadPayload)
    case SetWaterHeater(on) => Drafted(base.(controlMode := Manual, waterHeater := on))
    case UnsupportedField => NotDrafted(BadField)
  }

  datatype Boundary = Boundary(bookingId: string, checkoutAt: int)

  predicate Boundable(phase: AutomationPhase) {
    phase.OverridePhase? || phase.Occupied? || phase.PreArrival? || phase.Reserved?
  }

  function FindBooking(bookings: seq<BookingRecord>, id: string): (r: Option<BookingRow>)
    ensures r.Some? ==> r.value.id == id && exists b :: b in bookings && b.row == r.value
  {
    if bookings == [] then None
    else if bookings[0].row.id == id then Some(bookings[0].row)
    else FindBooking(bookings[1..], id)
  }

  /** The reservation an override can last for: that of the newest room state, if its checkout lies ahead. */
  function CurrentBoundary(record: RoomRecord, bookings: seq<BookingRecord>, policy: Policy, now: int): Option<Boundary> {
    var state := LatestState(record);
    if state.None? || state.value.bookingId.None? || !Boundable(state.value.phase) then None
    else
      var booking := FindBooking(bookings, state.value.bookingId.value);
      if booking.None? then None
      else
        var checkoutAt := booking.value.departure * DAY + policy.checkOut;
        if checkoutAt <= now then None else Some(Boundary(booking.value.id, checkoutAt))
  }

  function RowFor(draft: Draft, boundary: Option<Boundary>, policy: Policy, now: int, id: int): BuiltRow {
    var target := if draft.target.Some? then Some(policy.ClampTemperature(draft.target.value)) else None;
    if draft.controlMode.Automatic? then
      Built(OverrideRow(id, None, draft.controlMode, draft.hvacMode, target, draft.waterHeater, now, None, None, false))
    else if !draft.duration.UntilCheckout? then
      Built(OverrideRow(id, None, draft.controlMode, draft.hvacMode, target, draft.waterHeater, now,
                        Some(now + Minutes(draft.duration) * MINUTE), None, false))
    else if boundary.None? then NotBuilt(NoCurrentReservation)
    else
      Built(OverrideRow(id, Some(boundary.value.bookingId), draft.controlMode, draft.hvacMode, target, draft.waterHeater,
                        now, None, Some(boundary.value.checkoutAt), true))
  }

  function BuildRow(record: RoomRecord, bookings: seq<BookingRecord>, command: Command, policy: Policy, now: int, id: int): BuiltRow {
    var redraft := RedraftFor(command, CurrentDraft(record, now), policy);
    if redraft.NotDrafted? then NotBuilt(redraft.refusal)
    else RowFor(redraft.draft, CurrentBoundary(record, bookings, policy, now), policy, now, id)
  }

  // Payloads

  function DefaultControlPayload(roomKey: string): ControlPayload {
    ControlPayload(roomKey, Automatic, HvacOff, None, DEFAULT_DURATION, false, false, false, None)
  }

  function ControlPayloadFor(roomKey: string, row: OverrideRow, now: int): ControlPayload {
    if !RowIsActive(row, now) then DefaultControlPayload(roomKey)
    else ControlPayload(roomKey, row.controlMode, row.hvacMode, row.target, DurationFromRow(row),
                        row.waterHeater == Some(true), !row.controlMode.Automatic?, row.untilCheckout,
                        if row.expiresAt.Some? then row.expiresAt else row.checkoutAt)
  }

  // A command as a step of the tables

  /** A refused command leaves nothing but an audit entry; None is its answer when it is accepted. */
  datatype CommandOutcome = CommandOutcome(tables: Tables, refusal: Option<Refusal>)

  function ApplyCommand(t: Tables, rooms: seq<Room>, policy: Policy, roomKey: string, command: Command, now: int, id: int): CommandOutcome {
    if forall r :: r in rooms ==> r.key != roomKey then CommandOutcome(t, Some(UnknownRoom))
    else
      var record := RecordOf(t.rooms, roomKey);
      var built := BuildRow(record, t.bookings, command, policy, now, id);
      if built.NotBuilt? then CommandOutcome(t, Some(built.refusal))
      else CommandOutcome(
        t.(rooms := t.rooms[roomKey := record.(overrides := record.overrides + [built.row])],
           outbox := t.outbox + [ControlState(ControlPayloadFor(roomKey, built.row, now))]), None)
  }

  class RoomControlCommandService {
    const db: Database
    const rooms: seq<Room>
    const policy: Policy

    constructor (db: Database, rooms: seq<Room>, policy: Policy)
      ensures this.db == db && this.rooms == rooms && this.policy == policy
    {
      this.db, this.rooms, this.policy := db, rooms, policy;
    }

    method BuildOverrideRow(record: RoomRecord, command: Command, now: int, id: int) returns (built: BuiltRow)
      ensures built == BuildRow(record, db.bookings, command, policy, now, id)
    {
      var base := CurrentDraft(record, now);
      var controlMode, hvacMode, target, waterHeater, duration := base.controlMode, base.hvacMode, base.target, base.waterHeater, base.duration;
      match command {
        case ReturnToAutomatic =>
          controlMode, hvacMode, target, waterHeater, duration := Automatic, HvacOff, None, None, DEFAULT_DURATION;
        case SetMode(mode) =>
          if mode.None? {
            return NotBuilt(BadPayload);
          }
          controlMode := mode.value;
          if controlMode.Automatic? {
            hvacMode, target, waterHeater := HvacOff, None, None;
          } else if controlMode.ForcedOff? {
            hvacMode, target, waterHeater := HvacOff, None, Some(false);
          } else {
            hvacMode := if hvacMode.HvacOff? then Auto else hvacMode;
            target := Some(TargetOr(target, policy.heatingTarget));
          }
        case SetHvacMode(mode) =>
          if mode.None? {
            return NotBuilt(BadPayload);
          }
          controlMode, hvacMode := Manual, mode.value;
          target := if hvacMode.HvacOff? then None else Some(TargetOr(target, policy.heatingTarget));
        case SetTemperature(value) =>
          if value.None? {
            return NotBuilt(BadPayload);
          }
          controlMode := Manual;
          hvacMode := if hvacMode.HvacOff? then Heat else hvacMode;
          target := Some(policy.ClampTemperature(value.value));
        case SetDuration(wanted) =>
          if controlMode.Automatic? {
            return NotBuilt(DurationNeedsOverride);
          }
          if wanted.None? {
            return NotBuilt(BadPayload);
          }
          if !wanted.value.UntilCheckout? && Minutes(wanted.value) > policy.manualMaxMinutes {
            return NotBuilt(DurationTooLong);
          }
          duration := wanted.value;
        case SetWaterHeater(on) =>
          if on.None? {
            return NotBuilt(BadPayload);
          }
          controlMode, waterHeater := Manual, on;
        case UnsupportedField =>
          return NotBuilt(BadField);
      }
      var expiresAt := if duration.UntilCheckout? then None else Some(now + Minutes(duration) * MINUTE);
      var untilCheckout := duration.UntilCheckout?;
      var boundary: Option<Boundary> := None;
      if controlMode.Automatic? {
        expiresAt, untilCheckout := None, false;
      } else if untilCheckout {
        boundary := CurrentBoundary(record, db.bookings, policy, now);
        if boundary.None? {
          return NotBuilt(NoCurrentReservation);
        }
      }
      return Built(OverrideRow(id, if boundary.Some? then Some(boundary.value.bookingId) else None, controlMode, hvacMode,
                               if target.Some? then Some(policy.ClampTemperature(target.value)) else None, waterHeater, now,
                               expiresAt, if boundary.Some? then Some(boundary.value.checkoutAt) else None, untilCheckout));
    }

    method ApplyMqttCommand(roomKey: string, command: Command, now: int, id: int) returns (refusal: Option<Refusal>)
      modifies db
      ensures CommandOutcome(db.View(), refusal) == ApplyCommand(old(db.View()), rooms, policy, roomKey, command, now, id)
    {
      if forall r :: r in rooms ==> r.key != roomKey {
        return Some(UnknownRoom);
      }
      var record := RecordOf(db.rooms, roomKey);
      var built := BuildOverrideRow(record, command, now, id);
      if built.NotBuilt? {
        return Some(built.refusal);
      }
      db.rooms := db.rooms[roomKey := record.(overrides := record.overrides + [built.row])];
      db.outbox := db.outbox + [ControlState(ControlPayloadFor(roomKey, built.row, now))];
      return None;
    }
  }

  // The override chain

  predicate TimedFor(row: OverrideRow, duration: Duration) {
    && !duration.UntilCheckout?
    && !row.untilCheckout
    && row.bookingId.None?
    && row.checkoutAt.None?
    && row.expiresAt == Some(row.startsAt + Minutes(duration) * MINUTE)
  }

  predicate BoundToCheckout(row: OverrideRow) {
    && row.untilCheckout
    && row.expiresAt.None?
    && row.bookingId.Some?
    && row.checkoutAt.Some?
    && row.startsAt < row.checkoutAt.value
  }

  /** What every override row satisfies, whichever commands and ticks led to it. */
  predicate WellFormed(row: OverrideRow, policy: Policy) {
    && (row.hvacMode.HvacOff? <==> row.target.None?)
    && (row.target.Some? ==> policy.minimumTarget <= row.target.value <= policy.maximumTarget)
    && (if row.controlMode.Automatic? then
          && row.hvacMode.HvacOff? && row.waterHeater.None?
          && row.bookingId.None? && row.expiresAt.None? && row.checkoutAt.None? && !row.untilCheckout
        else
          && (row.controlMode.ForcedOff? ==> row.hvacMode.HvacOff? && row.waterHeater == Some(false))
          && (BoundToCheckout(row) || exists d :: TimedFor(row, d) && WithinMaximum(d, policy)))
  }

  /** The default duration is never compared with the policy's maximum; every other one was. */
  predicate WithinMaximum(duration: Duration, policy: Policy) {
    duration == DEFAULT_DURATION || Minutes(duration) <= policy.manualMaxMinutes
  }

  ghost predicate ChainOk(record: RoomRecord, policy: Policy) {
    forall row :: row in record.overrides ==> WellFormed(row, policy)
  }

  /** A row's duration is recovered from its times. */
  lemma DurationIsRecovered(row: OverrideRow, duration: Duration)
    requires TimedFor(row, duration)
    ensures DurationFromRow(row) == duration
  {
    var n := Minutes(duration);
    assert (row.expiresAt.value - row.startsAt) as real / MINUTE as real == n as real;
    RoundingFixesIntegers(n);
  }

  ghost predicate DraftOk(draft: Draft, policy: Policy) {
    && (draft.hvacMode.HvacOff? <==> draft.target.None?)
    && (draft.controlMode.ForcedOff? ==> draft.hvacMode.HvacOff? && draft.waterHeater == Some(false))
    && (draft.duration.UntilCheckout? || WithinMaximum(draft.duration, policy))
  }

  lemma CurrentDraftOk(record: RoomRecord, policy: Policy, now: int)
    requires ChainOk(record, policy)
    ensures DraftOk(CurrentDraft(record, now), policy)
  {
    var latest := LatestOverride(record);
    if latest.Some? && !latest.value.controlMode.Automatic? && !BoundToCheckout(latest.value) {
      var d :| TimedFor(latest.value, d) && WithinMaximum(d, policy);
      DurationIsRecovered(latest.value, d);
    }
  }

  /** Any command on a well-formed chain builds a well-formed row, with the duration that was asked for. */
  lemma CommandKeepsChain(record: RoomRecord, bookings: seq<BookingRecord>, command: Command, policy: Policy, now: int, id: int)
    requires policy.Valid() && ChainOk(record, policy)
    requires BuildRow(record, bookings, command, policy, now, id).Built?
    ensures var row := BuildRow(record, bookings, command, policy, now, id).row;
            && WellFormed(row, policy)
            && row.startsAt == now && row.id == id
            && (row.untilCheckout ==>
                  exists b :: b in bookings && Some(b.row.id) == row.bookingId
                    && row.checkoutAt == Some(b.row.departure * DAY + policy.checkOut))
  {
    CurrentDraftOk(record, policy, now);
    var draft := RedraftFor(command, CurrentDraft(record, now), policy).draft;
    var row := BuildRow(record, bookings, command, policy, now, id).row;
    assert DraftOk(draft, policy);
    if !draft.controlMode.Automatic? && !draft.duration.UntilCheckout? {
      assert TimedFor(row, draft.duration);
    }
  }

  /**
   A command on a well-formed chain exceeds the policy's maximum exactly when it builds a row of the default
   duration and the maximum is shorter than that.
   */
  lemma MaximumIsExceededExactly(record: RoomRecord, bookings: seq<BookingRecord>, command: Command, policy: Policy, now: int, id: int)
    requires policy.Valid() && ChainOk(record, policy)
    requires BuildRow(record, bookings, command, policy, now, id).Built?
    requires BuildRow(record, bookings, command, policy, now, id).row.expiresAt.Some?
    ensures var length := BuildRow(record, bookings, command, policy, now, id).row.expiresAt.value - now;
            length > policy.manualMaxMinutes * MINUTE <==>
              length == Minutes(DEFAULT_DURATION) * MINUTE && policy.manualMaxMinutes < Minutes(DEFAULT_DURATION)
  {
    CommandKeepsChain(record, bookings, command, policy, now, id);
  }

  ghost predicate WithinPolicy(record: RoomRecord, bookings: seq<BookingRecord>, command: Command, policy: Policy, now: int, id: int) {
    var built := BuildRow(record, bookings, command, policy, now, id);
    built.Built? && built.row.expiresAt.Some? ==> built.row.expiresAt.value - now <= policy.manualMaxMinutes * MINUTE
  }

  /** Every command on every well-formed chain keeps to the policy's maximum. */
  ghost predicate KeepsMaximum(policy: Policy) {
    forall record, bookings, command, now, id :: ChainOk(record, policy) ==>
      WithinPolicy(record, bookings, command, policy, now, id)
  }

  /** The policy's maximum is kept by all commands exactly when it is not shorter than the default duration. */
  lemma MaximumIsKeptExactly(policy: Policy)
    requires policy.Valid()
    ensures KeepsMaximum(policy) <==> Minutes(DEFAULT_DURATION) <= policy.manualMaxMinutes
  {
    if Minutes(DEFAULT_DURATION) <= policy.manualMaxMinutes {
      forall record, bookings, command, now, id | ChainOk(record, policy)
        ensures WithinPolicy(record, bookings, command, policy, now, id)
      {
        var built := BuildRow(record, bookings, command, policy, now, id);
        if built.Built? && built.row.expiresAt.Some? {
          MaximumIsExceededExactly(record, bookings, command, policy, now, id);
        }
      }
    } else {
      DefaultDurationCanExceedMaximum(policy, 0, 0);
      assert ChainOk(EmptyRecord, policy);
      assert !WithinPolicy(EmptyRecord, [], SetMode(Some(ForcedOff)), policy, 0, 0);
    }
  }

  /** An instance: the first command for a room, under a maximum below 60 minutes. */
  lemma DefaultDurationCanExceedMaximum(policy: Policy, now: int, id: int)
    requires policy.Valid() && policy.manualMaxMinutes < 60
    ensures var built := BuildRow(EmptyRecord, [], SetMode(Some(ForcedOff)), policy, now, id);
            built.Built? && built.row.expiresAt == Some(now + 60 * MINUTE)
            && built.row.expiresAt.value - now > policy.manualMaxMinutes * MINUTE
  {
  }

  /** What a well-formed row gives to an evaluation is what the derivation accepts. */
  lemma WellFormedIsAccepted(latest: Option<OverrideRow>, policy: Policy, now: int)
    requires latest.Some? ==> WellFormed(latest.value, policy)
    ensures AcceptedOverride(ActiveOverride(latest, now))
  {
  }

  /** A row that a draft was read from is active for the evaluation of its own booking, and the other way round. */
  lemma RowAndOverrideAgree(row: OverrideRow, policy: Policy, now: int, selectedId: string)
    requires WellFormed(row, policy)
    ensures (ActiveOverride(Some(row), now).Some? && ActiveOverride(Some(row), now).value.IsActive(now, selectedId))
       <==> RowIsActive(row, now) && (row.untilCheckout ==> row.bookingId == Some(selectedId))
  {
  }

  // One command after the other

  function Clamped(draft: Draft, policy: Policy): Draft {
    draft.(target := if draft.target.Some? then Some(policy.ClampTemperature(draft.target.value)) else None)
  }

  /**
   What a command stored is what the next one starts from: while the new row is active, reading it back gives the
   draft it was made of, with its target clamped.
   */
  lemma DraftRoundTrip(record: RoomRecord, bookings: seq<BookingRecord>, command: Command, policy: Policy, now: int, id: int, later: int)
    requires policy.Valid() && ChainOk(record, policy)
    requires BuildRow(record, bookings, command, policy, now, id).Built?
    requires var row := BuildRow(record, bookings, command, policy, now, id).row;
             && RowIsActive(row, later)
             && forall x :: x in record.overrides ==> !NewerOverride()(x, row)
    ensures var row := BuildRow(record, bookings, command, policy, now, id).row;
            (CurrentDraft(record.(overrides := record.overrides + [row]), later)
             == Clamped(RedraftFor(command, CurrentDraft(record, now), policy).draft, policy))
  {
    var draft := RedraftFor(command, CurrentDraft(record, now), policy).draft;
    var row := BuildRow(record, bookings, command, policy, now, id).row;
    LatestAppend(NewerOverride(), record.overrides, row);
    if !draft.duration.UntilCheckout? {
      DurationIsRecovered(row, draft.duration);
    }
  }

  /** The command sets a field that leaves the others of a running override alone. */
  predicate SetsOneField(command: Command) {
    || (command.SetTemperature? && command.target.Some?)
    || (command.SetWaterHeater? && command.on.Some?)
    || (command.SetDuration? && command.duration.Some?)
  }

  /** On a running manual override, commands for different fields can be given in either order. */
  lemma FieldCommandsCommute(a: Command, b: Command, base: Draft, policy: Policy)
    requires base.controlMode.Manual? && SetsOneField(a) && SetsOneField(b)
    requires a.SetTemperature? != b.SetTemperature? || a.SetWaterHeater? != b.SetWaterHeater?
    requires RedraftFor(a, base, policy).Drafted? && RedraftFor(b, base, policy).Drafted?
    ensures RedraftFor(b, RedraftFor(a, base, policy).draft, policy).Drafted?
    ensures RedraftFor(b, RedraftFor(a, base, policy).draft, policy) == RedraftFor(a, RedraftFor(b, base, policy).draft, policy)
  {
  }

  // What commands do, on rows

  /** The override in force before the command: the newest row, while its own end lies ahead. */
  function Running(record: RoomRecord, now: int): Option<OverrideRow> {
    var latest := LatestOverride(record);
    if latest.None? || latest.value.controlMode.Automatic? then None
    else if latest.value.untilCheckout then
      if latest.value.bookingId.Some? && latest.value.checkoutAt.Some? && now < latest.value.checkoutAt.value then latest else None
    else if latest.value.expiresAt.Some? && now < latest.value.expiresAt.value then latest
    else None
  }

  /** The mode that a command which does not say one goes on with. */
  function ModeOr(running: Option<OverrideRow>, otherwise: HvacMode): HvacMode {
    if running.Some? && !running.value.hvacMode.HvacOff? then running.value.hvacMode else otherwise
  }

  /** The temperature that a heating or cooling mode which does not say one goes on with; zero degrees count as none. */
  function WishOr(running: Option<OverrideRow>, otherwise: real): real {
    if running.Some? && running.value.target.Some? && running.value.target.value != 0.0 then running.value.target.value else otherwise
  }

  predicate NearestTarget(policy: Policy, wish: real, target: Option<real>) {
    target.Some? && Nearest(policy, wish, target.value)
  }

  predicate WaterGoesOn(running: Option<OverrideRow>, row: OverrideRow) {
    row.waterHeater == if running.Some? then running.value.waterHeater else Some(false)
  }

  predicate ClimateGoesOn(running: Option<OverrideRow>, row: OverrideRow) {
    if running.Some? then row.hvacMode == running.value.hvacMode && row.target == running.value.target
    else row.hvacMode.HvacOff? && row.target.None?
  }

  /** The row lasts as long from now as the running one was made to last, or until checkout like it; 60 minutes without one. */
  predicate LengthGoesOn(running: Option<OverrideRow>, row: OverrideRow) {
    if running.None? then !row.untilCheckout && row.expiresAt == Some(row.startsAt + 60 * MINUTE)
    else if running.value.untilCheckout then row.untilCheckout
    else
      && !row.untilCheckout && row.expiresAt.Some?
      && running.value.expiresAt.Some?
      && row.expiresAt.value - row.startsAt == running.value.expiresAt.value - running.value.startsAt
  }

  predicate BackToAutomatic(row: OverrideRow) {
    && row.controlMode.Automatic?
    && row.hvacMode.HvacOff? && row.target.None? && row.waterHeater.None?
    && !row.untilCheckout && row.expiresAt.None? && row.bookingId.None? && row.checkoutAt.None?
  }

  /** The field that the command sets has the commanded value, and every other one goes on as it was. */
  predicate Obeys(command: Command, running: Option<OverrideRow>, row: OverrideRow, policy: Policy) {
    match command
    case ReturnToAutomatic => BackToAutomatic(row)
    case SetMode(mode) =>
      mode.Some?
      && (match mode.value
          case Automatic => BackToAutomatic(row)
          case ForcedOff =>
            && row.controlMode.ForcedOff?
            && row.hvacMode.HvacOff? && row.target.None? && row.waterHeater == Some(false)
            && LengthGoesOn(running, row)
          case Manual =>
            && row.controlMode.Manual?
            && row.hvacMode == ModeOr(running, Auto)
            && NearestTarget(policy, WishOr(running, policy.heatingTarget), row.target)
            && WaterGoesOn(running, row) && LengthGoesOn(running, row))
    case SetHvacMode(mode) =>
      && row.controlMode.Manual?
      && Some(row.hvacMode) == mode
      && (if row.hvacMode.HvacOff? then row.target.None?
          else NearestTarget(policy, WishOr(running, policy.heatingTarget), row.target))
      && WaterGoesOn(running, row) && LengthGoesOn(running, row)
    case SetTemperature(wish) =>
      && row.controlMode.Manual?
      && wish.Some? && NearestTarget(policy, wish.value, row.target)
      && row.hvacMode == ModeOr(running, Heat)
      && WaterGoesOn(running, row) && LengthGoesOn(running, row)
    case SetDuration(duration) =>
      && running.Some? && row.controlMode == running.value.controlMode
      && ClimateGoesOn(running, row) && WaterGoesOn(running, row)
      && duration.Some?
      && (match duration.value
          case Minutes60 => !row.untilCheckout && row.expiresAt == Some(row.startsAt + 60 * MINUTE)
          case Minutes240 => !row.untilCheckout && row.expiresAt == Some(row.startsAt + 240 * MINUTE)
          case Minutes720 => !row.untilCheckout && row.expiresAt == Some(row.startsAt + 720 * MINUTE)
          case UntilCheckout => row.untilCheckout)
    case SetWaterHeater(on) =>
      && row.controlMode.Manual?
      && on.Some? && row.waterHeater == on
      && ClimateGoesOn(running, row) && LengthGoesOn(running, row)
    case UnsupportedField => false
  }

  lemma RunningDraft(record: RoomRecord, policy: Policy, now: int)
    requires ChainOk(record, policy)
    ensures var running, draft := Running(record, now), CurrentDraft(record, now);
            if running.None? then draft == Draft(Automatic, HvacOff, None, Some(false), Minutes60)
            else
              && running == LatestOverride(record) && WellFormed(running.value, policy) && !running.value.controlMode.Automatic?
              && draft.controlMode == running.value.controlMode && draft.hvacMode == running.value.hvacMode
              && draft.target == running.value.target && draft.waterHeater == running.value.waterHeater
              && (draft.duration.UntilCheckout? <==> running.value.untilCheckout)
              && (!running.value.untilCheckout ==> TimedFor(running.value, draft.duration))
  {
    var running := Running(record, now);
    if running.Some? && !running.value.untilCheckout {
      var d :| TimedFor(running.value, d) && WithinMaximum(d, policy);
      DurationIsRecovered(running.value, d);
    }
  }

  /** The values of a built row, from the draft it was made of. */
  lemma RowOfDraft(draft: Draft, boundary: Option<Boundary>, policy: Policy, now: int, id: int)
    requires policy.Valid() && RowFor(draft, boundary, policy, now, id).Built?
    ensures var row := RowFor(draft, boundary, policy, now, id).row;
            && row.startsAt == now && row.id == id
            && row.controlMode == draft.controlMode && row.hvacMode == draft.hvacMode && row.waterHeater == draft.waterHeater
            && (row.target.Some? <==> draft.target.Some?)
            && (draft.target.Some? ==> Nearest(policy, draft.target.value, row.target.value))
            && (draft.target.Some? && InRange(policy, draft.target.value) ==> row.target == draft.target)
            && (draft.controlMode.Automatic? ==> !row.untilCheckout && row.expiresAt.None? && row.bookingId.None? && row.checkoutAt.None?)
            && (!draft.controlMode.Automatic? && draft.duration.UntilCheckout? ==> row.untilCheckout)
            && (!draft.controlMode.Automatic? && !draft.duration.UntilCheckout? ==>
                !row.untilCheckout && row.expiresAt == Some(now + Minutes(draft.duration) * MINUTE))
  {
  }

  /**
   Every accepted command on a well-formed chain does what it says: the new row has the commanded value, and everything
   the command does not set goes on from the override in force, or from the defaults without one.
   */
  lemma CommandIsObeyed(record: RoomRecord, bookings: seq<BookingRecord>, command: Command, policy: Policy, now: int, id: int)
    requires policy.Valid() && ChainOk(record, policy)
    requires BuildRow(record, bookings, command, policy, now, id).Built?
    ensures var row := BuildRow(record, bookings, command, policy, now, id).row;
            Obeys(command, Running(record, now), row, policy) && row.startsAt == now && row.id == id
  {
    hide CurrentDraft, CurrentBoundary, RowFor, WellFormed, Running;
    RunningDraft(record, policy, now);
    var draft := RedraftFor(command, CurrentDraft(record, now), policy).draft;
    RowOfDraft(draft, CurrentBoundary(record, bookings, policy, now), policy, now, id);
    TargetsStayInRange(record, policy, now);
    if command.SetTemperature? {
      NearestIsKept(policy, command.target.value);
    }
  }

  lemma TargetsStayInRange(record: RoomRecord, policy: Policy, now: int)
    requires ChainOk(record, policy)
    ensures var running := Running(record, now);
            running.Some? ==>
              && (running.value.target.Some? ==> InRange(policy, running.value.target.value))
              && (running.value.hvacMode.HvacOff? <==> running.value.target.None?)
              && !running.value.controlMode.Automatic?
  {
  }

  lemma NearestIsKept(policy: Policy, wish: real)
    requires policy.Valid()
    ensures Nearest(policy, wish, policy.ClampTemperature(wish))
  {
  }

  /** The command's payload was not understood. */
  predicate NotUnderstood(command: Command) {
    || command == SetMode(None) || command == SetHvacMode(None) || command == SetTemperature(None)
    || command == SetDuration(None) || command == SetWaterHeater(None) || command.UnsupportedField?
  }

  /** The command would make a row until checkout. */
  predicate UntilCheckoutWanted(command: Command, running: Option<OverrideRow>) {
    if command.SetDuration? then command.duration == Some(UntilCheckout)
    else running.Some? && running.value.untilCheckout && !command.ReturnToAutomatic? && command != SetMode(Some(Automatic))
  }

  /** There is a reservation to last for: that of the newest state, in a phase with a guest, with its checkout ahead. */
  ghost predicate HasReservation(record: RoomRecord, bookings: seq<BookingRecord>, policy: Policy, now: int) {
    var state := LatestState(record);
    && state.Some?
    && (state.value.phase.OverridePhase? || state.value.phase.Occupied? || state.value.phase.PreArrival? || state.value.phase.Reserved?)
    && exists i :: 0 <= i < |bookings| && state.value.bookingId == Some(bookings[i].row.id)
         && now < bookings[i].row.departure * DAY + policy.checkOut
         && forall j :: 0 <= j < i ==> bookings[j].row.id != bookings[i].row.id
  }

  lemma {:induction false} FoundBooking(bookings: seq<BookingRecord>, id: string)
    ensures FindBooking(bookings, id).None? <==> forall i :: 0 <= i < |bookings| ==> bookings[i].row.id != id
    ensures FindBooking(bookings, id).Some? ==>
              exists i :: 0 <= i < |bookings| && bookings[i].row == FindBooking(bookings, id).value && bookings[i].row.id == id
                && forall j :: 0 <= j < i ==> bookings[j].row.id != id
  {
    if bookings != [] && bookings[0].row.id != id {
      FoundBooking(bookings[1..], id);
      if FindBooking(bookings, id).Some? {
        var i :| 0 <= i < |bookings| - 1 && bookings[1..][i].row == FindBooking(bookings, id).value && bookings[1..][i].row.id == id
          && forall j :: 0 <= j < i ==> bookings[1..][j].row.id != id;
        assert bookings[i + 1].row == FindBooking(bookings, id).value;
        forall j | 0 <= j < i + 1
          ensures bookings[j].row.id != id
        {
          if j > 0 {
            assert bookings[1..][j - 1] == bookings[j];
          }
        }
      } else {
        forall i | 0 <= i < |bookings|
          ensures bookings[i].row.id != id
        {
          if i > 0 {
            assert bookings[1..][i - 1] == bookings[i];
          }
        }
      }
    }
  }

  lemma ReservationExactly(record: RoomRecord, bookings: seq<BookingRecord>, policy: Policy, now: int)
    ensures CurrentBoundary(record, bookings, policy, now).Some? <==> HasReservation(record, bookings, policy, now)
    ensures CurrentBoundary(record, bookings, policy, now).Some? ==>
              LatestState(record).Some? && Some(CurrentBoundary(record, bookings, policy, now).value.bookingId) == LatestState(record).value.bookingId
  {
    var state := LatestState(record);
    if state.Some? && state.value.bookingId.Some? {
      FoundBooking(bookings, state.value.bookingId.value);
    }
  }

  /**
   A command for a room is refused exactly when its payload was not understood, when it sets a duration without an
   override in force or beyond the policy's maximum, or when it would last until the checkout of no reservation.
   */
  lemma RefusedExactly(record: RoomRecord, bookings: seq<BookingRecord>, command: Command, policy: Policy, now: int, id: int)
    requires policy.Valid() && ChainOk(record, policy)
    ensures var running := Running(record, now);
            BuildRow(record, bookings, command, policy, now, id).NotBuilt? <==>
              || NotUnderstood(command)
              || (command.SetDuration? && running.None?)
              || (command == SetDuration(Some(Minutes60)) && policy.manualMaxMinutes < 60)
              || (command == SetDuration(Some(Minutes240)) && policy.manualMaxMinutes < 240)
              || (command == SetDuration(Some(Minutes720)) && policy.manualMaxMinutes < 720)
              || (UntilCheckoutWanted(command, running) && !HasReservation(record, bookings, policy, now))
    ensures var built := BuildRow(record, bookings, command, policy, now, id);
            built.Built? && built.row.untilCheckout ==>
              LatestState(record).Some? && built.row.bookingId == LatestState(record).value.bookingId
  {
    hide CurrentDraft, CurrentBoundary, WellFormed, Running, HasReservation;
    RunningDraft(record, policy, now);
    TargetsStayInRange(record, policy, now);
    ReservationExactly(record, bookings, policy, now);
  }

  /** The override that an evaluation sees is the row, as long as its end lies ahead; a booking is named only until checkout. */
  lemma OverrideIsTheRow(row: OverrideRow, now: int)
    ensures var o := ActiveOverride(Some(row), now);
            && (o.Some? <==>
                && !row.controlMode.Automatic?
                && (if row.untilCheckout then row.bookingId.Some? && row.checkoutAt.Some? && now < row.checkoutAt.value
                    else row.expiresAt.Some? && now < row.expiresAt.value))
            && (o.Some? ==>
                && o.value.controlMode == row.controlMode && o.value.hvacMode == row.hvacMode && o.value.target == row.target
                && o.value.waterHeater == row.waterHeater && o.value.expiresAt == row.expiresAt
                && o.value.checkoutAt == row.checkoutAt && o.value.untilCheckout == row.untilCheckout
                && o.value.bookingId == (if row.untilCheckout then row.bookingId else None))
  {
  }

  /** The published control state shows the row while its end lies ahead, and automatic control afterwards. */
  lemma ControlStateShowsRow(record: RoomRecord, roomKey: string, row: OverrideRow, policy: Policy, now: int)
    requires WellFormed(row, policy)
    ensures var shown := ControlPayloadFor(roomKey, row, now);
            && shown.roomKey == roomKey
            && (shown.active <==> ActiveOverride(Some(row), now).Some?)
            && (shown.active ==>
                && shown.controlMode == row.controlMode && shown.hvacMode == row.hvacMode && shown.target == row.target
                && (shown.waterHeater <==> row.waterHeater == Some(true))
                && shown.untilCheckout == row.untilCheckout
                && shown.expiresAt == (if row.untilCheckout then row.checkoutAt else row.expiresAt)
                && (if row.untilCheckout then shown.duration == UntilCheckout else TimedFor(row, shown.duration)))
            && (!shown.active ==> shown.controlMode.Automatic? && shown.hvacMode.HvacOff? && shown.target.None? && shown.expiresAt.None?)
  {
    if !row.controlMode.Automatic? && !row.untilCheckout {
      var d :| TimedFor(row, d) && WithinMaximum(d, policy);
      DurationIsRecovered(row, d);
    }
  }
}
