/**
 * The client endpoints as methods on the mutable session. Each one runs its
 * endpoint's checks and loops step by step, and its postcondition ties the
 * resulting tables and reply to the specification function of the same
 * name; the read-only ones change nothing and return what the page shows.
 */
module ClientEndpoints {
  import opened Wrappers
  import opened Models
  import opened Text
  import opened Ledger
  import opened Store
  import opened Effects
  import Admission
  import Cancellation
  import Profile
  import Views

  /** `get_profile`: the balance loop over the user's entries, floored at zero. */
  method GetProfile(db: Database, me: Id, now: int) returns (credits: int)
    ensures credits == Views.ShownCredits(db.Snapshot(), me, now)
    ensures credits >= 0
  {
    var balance := AvailableCredits(db.credits, me, now);
    credits := if balance < 0 then 0 else balance;
  }

  /** `book_class`: the checks in order, the balance loop, then the row made CONFIRMED and one credit debited. */
  method BookClass(db: Database, me: Id, c: Id, now: int) returns (r: Result<Id>)
    requires me in db.users
    modifies db
    ensures (db.Snapshot(), r) == Admission.BookClass(old(db.Snapshot()), me, c, now)
  {
    var d := db.Snapshot();
    if d.users[me].isTrial {
      return Err(TrialAccount);
    }
    if Admission.Paused(d) {
      return Err(ReservationsPaused);
    }
    if c !in d.classes {
      return Err(ClassNotFound);
    }
    if d.classes[c].startTime < now {
      return Err(ClassPast);
    }
    var existing := RowFor(d, me, c);
    if existing.Some? && d.bookings[existing.value].status == Confirmed {
      return Err(AlreadyBooked);
    }
    var balance := AvailableCredits(d.credits, me, now);
    if balance < 1 {
      return Err(NoCredits);
    }
    if ConfirmedCount(d.bookings, c) >= d.classes[c].maxSlots {
      return Err(ClassFull);
    }
    var k;
    if existing.Some? {
      k := existing.value;
      d := d.(bookings := d.bookings[k := Confirm(d.bookings[k])]);
    } else {
      k := d.nextId;
      d := InsertBooking(d, NewBooking(me, c));
    }
    d := d.(credits := d.credits + [NewCredit(me, -1)]);
    db.Commit(d);
    return Ok(k);
  }

  /** `cancel_booking`: the checks in order, then the row cancelled and, before the deadline, one credit back. */
  method CancelBooking(db: Database, me: Id, k: Id, now: int) returns (r: Result<bool>)
    requires me in db.users
    modifies db
    ensures (db.Snapshot(), r) == Cancellation.CancelBooking(old(db.Snapshot()), me, k, now)
  {
    if db.users[me].isTrial {
      return Err(TrialAccount);
    }
    if k !in db.bookings || db.bookings[k].user != me {
      return Err(BookingNotFound);
    }
    var b := db.bookings[k];
    if b.status != Confirmed {
      return Err(BookingNotConfirmed);
    }
    if b.gymClass !in db.classes {
      return Err(ClassNotFound);
    }
    var start := db.classes[b.gymClass].startTime;
    if start <= now {
      return Err(ClassStarted);
    }
    var refund := now < Cancellation.RefundDeadline(db.Snapshot(), start);
    db.bookings := db.bookings[k := Cancel(b, now)];
    if refund {
      db.credits := db.credits + [NewCredit(me, 1)];
    }
    return Ok(refund);
  }

  /** `delete_my_account`: anonymise, cancel the future CONFIRMED bookings without refund, then commit. */
  method DeleteMyAccount(db: Database, me: Id, now: int) returns (r: Result<()>)
    requires me in db.users
    modifies db
    ensures (db.Snapshot(), r) == Cancellation.DeleteMyAccount(old(db.Snapshot()), me, now)
  {
    var d := db.Snapshot();
    var u := Cancellation.Anonymised(d.users[me], me, now);
    if ClashesWith(d.users, u, Some(me)) {
      return Err(IntegrityError);
    }
    d := d.(users := d.users[me := u]);
    var future := FutureConfirmedOf(d, me, now);
    var bs, _, _ := CancelBookings(d.bookings, d.credits, future, false, now);
    db.Commit(d.(bookings := bs));
    return Ok(());
  }

  /** `update_profile`: the edits, then the DNI assigned or the shadow holding it merged; a clash rolls back. */
  method UpdateProfile(db: Database, me: Id, fullName: Option<string>, dni: Option<string>, phone: Option<string>)
    returns (r: Result<()>)
    requires me in db.users
    modifies db
    ensures (db.Snapshot(), r) == Profile.UpdateProfile(old(db.Snapshot()), me, fullName, dni, phone)
  {
    var db0 := db.Snapshot();
    if fullName.Some? && Strip(fullName.value) == "" {
      return Err(EmptyName);
    }
    if dni.Some? && Strip(dni.value) == "" {
      return Err(EmptyDni);
    }
    if dni.Some? && !IsDigits(Strip(dni.value)) {
      return Err(DniNotNumeric);
    }
    if fullName.None? && phone.None? && dni.None? {
      return Err(NothingToUpdate);
    }
    var d := db0.(users := db0.users[me := Profile.Edited(db0.users[me], fullName, phone)]);
    if dni.Some? {
      var e;
      d, e := ApplyDni(db0, d, me, Strip(dni.value));
      if e.Some? {
        return Err(e.value);
      }
    }
    if ClashesWith(d.users, d.users[me], Some(me)) {
      return Err(IntegrityError);
    }
    db.Commit(d);
    return Ok(());
  }

  /**
   * The DNI step of `update_profile` on the edited tables: a free DNI is
   * assigned, a LOCAL holder merged, any other holder refused; the clash
   * test at commit is the caller's.
   */
  method ApplyDni(db0: Db, d0: Db, me: Id, x: string) returns (d: Db, e: Option<Error>)
    requires me in db0.users && d0.users.Keys == db0.users.Keys
    ensures me in d.users
    ensures e.Some? ==> Profile.ApplyDni(db0, d0, me, x) == (db0, Err(e.value))
    ensures e.None? ==> Profile.ApplyDni(db0, d0, me, x) == Profile.Committed(db0, d, me)
  {
    d := d0;
    var holder := Profile.HolderOf(db0, me, x);
    if holder.None? {
      d := d.(users := d.users[me := d.users[me].(dni := Some(x))]);
      return d, None;
    }
    var s := holder.value;
    if db0.users[s].provider != Local {
      return d, Some(DniTaken);
    }
    d := Profile.MergeShadow(d, s, me, x);
    return d, None;
  }
}
