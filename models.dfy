/**
 * The persistent entities of the booking system: enumerations, one record
 * per table row, and the uniqueness constraints the database enforces.
 * Row identifiers (UUIDs in the database) are natural numbers here.
 */
module Models {
  import opened Wrappers

  type Id = nat

  /** A time-of-day column, in seconds after midnight. */
  type TimeOfDay = s: int | 0 <= s < 86400

  datatype BookingStatus = Confirmed | Cancelled

  /** LOCAL marks a shadow user created by an administrator, with no real login. */
  datatype ProviderType = Google | Apple | Microsoft | Local

  datatype DayOfWeek = Monday | Tuesday | Wednesday | Thursday | Friday | Saturday | Sunday

  datatype User = User(
    email: string,
    fullName: Option<string>,
    dni: Option<string>,
    phone: Option<string>,
    provider: ProviderType,
    socialId: Option<string>,
    certificate: Option<string>,
    isAdmin: bool,
    disabled: bool,
    isTrial: bool,
    isDeleted: bool)

  datatype GymClass = GymClass(
    name: string,
    instructor: string,
    startTime: int,
    maxSlots: int,
    durationMinutes: int,
    recurrenceGroup: Option<Id>,
    recurrence: bool,
    cancelledAt: Option<int>)

  datatype Booking = Booking(
    user: Id,
    gymClass: Id,
    status: BookingStatus,
    assisted: bool,
    cancelledAt: Option<int>)

  datatype FixedSchedule = FixedSchedule(
    day: DayOfWeek,
    time: TimeOfDay,
    user: Id,
    cancelledAt: Option<int>)

  /** A signed ledger entry; nothing constrains the sign of `amount`. */
  datatype Credit = Credit(user: Id, amount: int, expiresAt: Option<int>)

  const DefaultClassName: string := "Clase"
  const DefaultMaxSlots: int := 8
  const DefaultDurationMinutes: int := 60

  /** A fresh booking row: CONFIRMED, not attended, never cancelled. */
  function NewBooking(user: Id, gymClass: Id): Booking
  {
    Booking(user, gymClass, Confirmed, false, None)
  }

  /** A fresh ledger entry without expiry. */
  function NewCredit(user: Id, amount: int): Credit
  {
    Credit(user, amount, None)
  }

  /** A shadow (LOCAL) user, as the administrator endpoints create them. */
  function ShadowUser(email: string, fullName: string, dni: string, socialId: string, isTrial: bool): User
  {
    User(email, Some(fullName), Some(dni), None, Local, Some(socialId), None, false, false, isTrial, false)
  }

  function Confirm(b: Booking): Booking
  {
    b.(status := Confirmed, cancelledAt := None)
  }

  function Cancel(b: Booking, now: int): Booking
  {
    b.(status := Cancelled, cancelledAt := Some(now))
  }

  predicate IsConfirmed(b: Booking) { b.status == Confirmed }

  /** The class is active while `cancelled_at` is unset. */
  predicate IsActiveClass(c: GymClass) { c.cancelledAt.None? }

  /** Constraint uq_prevent_double_booking_user: one row per (user, class), whatever its status. */
  predicate BookingPairsUnique(bookings: map<Id, Booking>)
  {
    forall i, j :: i in bookings && j in bookings && i != j ==>
      bookings[i].user != bookings[j].user || bookings[i].gymClass != bookings[j].gymClass
  }

  /** Constraint uq_fixed_user_slot: one rule per (user, day, time), active or cancelled. */
  predicate ScheduleSlotsUnique(schedules: map<Id, FixedSchedule>)
  {
    forall i, j :: i in schedules && j in schedules && i != j ==>
      schedules[i].user != schedules[j].user || schedules[i].day != schedules[j].day ||
      schedules[i].time != schedules[j].time
  }

  /** Two users clash when they share an email, a DNI, or a (provider, social id) pair. */
  predicate UsersClash(a: User, b: User)
  {
    || a.email == b.email
    || (a.dni.Some? && a.dni == b.dni)
    || (a.socialId.Some? && a.provider == b.provider && a.socialId == b.socialId)
  }

  /** The unique columns of the users table: email, dni, and (provider, social_id). */
  predicate UsersUnique(users: map<Id, User>)
  {
    forall i, j :: i in users && j in users && i != j ==> !UsersClash(users[i], users[j])
  }

  /** A booking's status and its cancellation stamp agree. */
  predicate StatusStamped(b: Booking)
  {
    (b.status == Confirmed) == b.cancelledAt.None?
  }
}
