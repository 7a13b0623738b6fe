/**
 The records of the hotel domain: bookings, rooms, the policy, manual overrides,
 desired room intents, and the checks their constructors make.

 Instants are whole microseconds on the hotel's wall clock, dates are day numbers.
 Hashes, UUIDs and free-text reasons are opaque values that are only compared.
 */
module Domain {

  datatype Option<+T> = None | Some(value: T)

  const SECOND: int := 1_000_000
  const MINUTE: int := 60 * SECOND
  const DAY: int := 1440 * MINUTE

  /** The date an instant falls on. */
  function DateOf(instant: int): int {
    instant / DAY
  }

  // Enumerations

  datatype BookingStatus = Expected | CheckedIn | CheckedOut | Canceled | NoShow | UnknownStatus

  datatype AutomationPhase =
    | Vacant
    | Reserved
    | AwaitingAssignment
    | PreArrival
    | Occupied
    | CheckoutDue
    | OverridePhase
    | Disabled
    | Conflict
    | UnknownPhase

  datatype ControlMode = Automatic | Manual | ForcedOff

  datatype HvacMode = HvacOff | Heat | Cool | Auto

  datatype AttentionReason =
    | NoAttention
    | UnknownClockStatus
    | MissingPhysicalRoom
    | OverlappingActiveBookings

  datatype Reason =
    | RoomDisabledByConfiguration
    | UnknownStatusSuppressesActions
    | OverlappingBookingsAssigned
    | NoActiveAssignedReservation
    | ValidManualOverrideActive
    | DeparturePassedWithoutCheckout
    | ClockReportsCheckedIn
    | ArrivalInsidePreparationWindow
    | ReservationOutsidePreparationWindow
    | BookingInactiveForAutomation
    | ArrivalWithoutPhysicalRoom
    | UnhandledPhaseSuppressed

  // Bookings and rooms

  /** Python's truth value of an optional string. */
  predicate Truthy(text: Option<string>) {
    text.Some? && text.value != ""
  }

  datatype Booking = Booking(
    id: string,
    status: BookingStatus,
    arrival: int,
    departure: int,
    roomId: Option<string>,
    roomNumber: Option<string>,
    payloadHash: string)
  {
    predicate HasPhysicalRoom() {
      Truthy(roomId) || Truthy(roomNumber)
    }

    predicate ActiveForAutomation() {
      status.Expected? || status.CheckedIn?
    }
  }

  /** A stay that the booking validator accepts. */
  predicate ValidDates(booking: Booking) {
    booking.arrival <= booking.departure
  }

  /** A stay of at least one night. */
  predicate OvernightStay(booking: Booking) {
    booking.arrival < booking.departure
  }

  datatype Room = Room(
    key: string,
    entranceKey: string,
    clockRoomId: Option<string>,
    slave: Option<int>,
    enabled: bool)

  // Policy

  datatype Policy = Policy(
    checkIn: int,
    checkOut: int,
    leadMinutes: int,
    heatingTarget: real,
    vacantSetback: real,
    minimumTarget: real,
    maximumTarget: real,
    manualMaxMinutes: int,
    waterHeaterPreArrival: bool,
    convectorsPreArrival: bool)
  {
    /** What the policy validators accept; check-in and check-out are times of day. */
    predicate Valid() {
      && 0 <= checkIn < DAY
      && 0 <= checkOut < DAY
      && 0 <= leadMinutes
      && 1 <= manualMaxMinutes
      && minimumTarget <= maximumTarget
    }

    function ClampTemperature(value: real): (r: real) {
      var raised := if value < minimumTarget then minimumTarget else value;
      if maximumTarget < raised then maximumTarget else raised
    }

    function Lead(): int {
      leadMinutes * MINUTE
    }
  }

  // Manual overrides

  datatype ManualOverride = ManualOverride(
    controlMode: ControlMode,
    bookingId: Option<string>,
    hvacMode: HvacMode,
    target: Option<real>,
    waterHeater: Option<bool>,
    expiresAt: Option<int>,
    checkoutAt: Option<int>,
    untilCheckout: bool)
  {
    predicate IsActive(now: int, selectedId: string) {
      if controlMode.Automatic? then
        false
      else if untilCheckout then
        && (bookingId.Some? ==> bookingId.value == selectedId)
        && checkoutAt.Some?
        && now < checkoutAt.value
      else
        expiresAt.Some? && now < expiresAt.value
    }
  }

  /** An override that has ended for a booking stays ended for it. */
  lemma OverrideStaysInactive(o: ManualOverride, now: int, later: int, selectedId: string)
    requires now <= later
    requires !o.IsActive(now, selectedId)
    ensures !o.IsActive(later, selectedId)
  {
  }

  // Desired room intents

  datatype HvacIntent = HvacIntent(enabled: bool, mode: HvacMode, target: Option<real>)

  /** The HVAC validator: enabled exactly when a mode other than off and a target are given. */
  predicate ValidHvac(hvac: HvacIntent) {
    if hvac.enabled then !hvac.mode.HvacOff? && hvac.target.Some?
    else hvac.mode.HvacOff? && hvac.target.None?
  }

  datatype Intent = Intent(
    roomKey: string,
    version: int,
    phase: AutomationPhase,
    controlMode: ControlMode,
    effectiveFrom: int,
    expiresAt: Option<int>,
    hvac: HvacIntent,
    waterHeater: bool,
    convectors: bool,
    reason: Reason,
    correlationId: int)
  {
    /** The payload that is fingerprinted: everything but the correlation id and the version. */
    function StablePayload(): Intent {
      this.(correlationId := 0, version := 0)
    }
  }

  predicate ValidIntent(intent: Intent) {
    && intent.roomKey != ""
    && 1 <= intent.version
    && ValidHvac(intent.hvac)
    && (intent.expiresAt.Some? ==> intent.effectiveFrom < intent.expiresAt.value)
  }

  // Room state evaluations

  datatype Evaluation = Evaluation(
    roomKey: Option<string>,
    phase: AutomationPhase,
    booking: Option<Booking>,
    needsAttention: bool,
    attention: AttentionReason,
    reason: Reason,
    effectiveFrom: int,
    expiresAt: Option<int>)
}
