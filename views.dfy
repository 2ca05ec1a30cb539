/**
 * The fields the class grid and the booking history derive for display:
 * free slots, the full flag, whether the user holds the class, and whether
 * a booking can still be cancelled. Each is tied to the admission or
 * cancellation rule it announces.
 */
module Views {
  import opened Wrappers
  import opened Models
  import opened Ledger
  import opened Store
  import opened Admission
  import opened Cancellation

  /** The slot fields of one class as shown to user `me`. */
  datatype SlotView = SlotView(confirmed: nat, available: int, isFull: bool, mine: bool)

  /** `my_status`: the user holds a CONFIRMED row for the class. */
  predicate HoldsConfirmed(bs: map<Id, Booking>, me: Id, c: Id)
  {
    exists k :: k in bs && bs[k].user == me && bs[k].gymClass == c && bs[k].status == Confirmed
  }

  /** The slot fields `get_gym_classes` and `get_my_bookings` compute for class `c`. */
  function Slots(db: Db, c: Id, me: Id): (v: SlotView)
    requires c in db.classes
    ensures v.confirmed == ConfirmedCount(db.bookings, c)
    ensures v.available + v.confirmed == db.classes[c].maxSlots
    ensures v.isFull <==> v.confirmed >= db.classes[c].maxSlots
    ensures v.mine <==> HoldsConfirmed(db.bookings, me, c)
  {
    var confirmed := ConfirmedCount(db.bookings, c);
    var available := db.classes[c].maxSlots - confirmed;
    SlotView(confirmed, available, available <= 0, HoldsConfirmed(db.bookings, me, c))
  }

  /** `can_cancel` of the booking history: CONFIRMED and the class not yet started. */
  predicate CanCancel(b: Booking, g: GymClass, now: int)
  {
    b.status == Confirmed && g.startTime > now
  }

  /** The balance `get_profile` and `search_users` show: the balance loop floored at zero. */
  function ShownCredits(db: Db, u: Id, now: int): (r: int)
    ensures r >= 0 && r >= Balance(db.credits, u, now)
    ensures Balance(db.credits, u, now) >= 0 ==> r == Balance(db.credits, u, now)
  {
    Displayed(Balance(db.credits, u, now))
  }

  /** A class shown full is exactly one `book_class` refuses for capacity once the earlier checks pass. */
  lemma FullMeansBookingRefused(db: Db, me: Id, c: Id, now: int)
    requires me in db.users && c in db.classes
    requires !db.users[me].isTrial && !Paused(db) && db.classes[c].startTime >= now
    requires !HoldsConfirmed(db.bookings, me, c) && Balance(db.credits, me, now) >= 1
    requires forall k :: k in db.bookings ==> k < db.nextId
    ensures BookClass(db, me, c, now).1 == Err(ClassFull) <==> Slots(db, c, me).isFull
  {
    var r := RowFor(db, me, c);
    if r.Some? {
      assert db.bookings[r.value].status != Confirmed;
    }
  }

  /** A class shown as the user's is one `book_class` refuses as already booked. */
  lemma MineMeansAlreadyBooked(db: Db, me: Id, c: Id, now: int)
    requires Valid(db) && me in db.users && c in db.classes
    requires !db.users[me].isTrial && !Paused(db) && db.classes[c].startTime >= now
    ensures BookClass(db, me, c, now).1 == Err(AlreadyBooked) <==> Slots(db, c, me).mine
  {
    BookClassLaterRejections(db, me, c, now);
    if HoldsConfirmed(db.bookings, me, c) {
      var k :| k in db.bookings && db.bookings[k].user == me && db.bookings[k].gymClass == c
             && db.bookings[k].status == Confirmed;
      ConfirmedRowIsFound(db, me, c, k);
    }
  }

  /**
   * `can_cancel` announces exactly the bookings `cancel_booking` accepts for
   * a non-trial owner; whether that cancellation refunds is a separate matter.
   */
  lemma CanCancelMeansAccepted(db: Db, me: Id, k: Id, now: int)
    requires me in db.users && !db.users[me].isTrial
    requires k in db.bookings && db.bookings[k].user == me && db.bookings[k].gymClass in db.classes
    ensures CancelBooking(db, me, k, now).1.Ok? <==>
      CanCancel(db.bookings[k], db.classes[db.bookings[k].gymClass], now)
  {
  }
}
