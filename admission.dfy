/**
 * Booking admission: the client's `book_class` (trial, pause, class, time,
 * duplicate, credit and capacity checks, then a -1 debit) and the
 * administrator's `manual_book` (user resolution, capacity before the
 * duplicate check, no debit). Both reactivate a cancelled row instead of
 * inserting a second one.
 */
module Admission {
  import opened Wrappers
  import opened Models
  import opened Utils
  import opened Text
  import opened Ledger
  import opened Store
  import opened Effects
  import opened Shadows

  const PauseKey: string := "pause_reservations"

  /** Whether the administrator paused reservations. */
  function Paused(db: Db): bool
  {
    GetSettingBool(db.settings, PauseKey, false)
  }

  /** The row for (user, class) made CONFIRMED: the cancelled row reactivated, or a new one inserted. */
  function Admit(db: Db, user: Id, c: Id): (r: (Db, Id))
    ensures r.0.users == db.users && r.0.classes == db.classes && r.0.schedules == db.schedules
    ensures r.0.credits == db.credits && r.0.settings == db.settings && r.0.instructors == db.instructors
  {
    match RowFor(db, user, c)
    case Some(k) => (db.(bookings := db.bookings[k := Confirm(db.bookings[k])]), k)
    case None => (InsertBooking(db, NewBooking(user, c)), db.nextId)
  }

  /** The admitted row, paid with one credit. */
  function Charged(db: Db, me: Id, c: Id): (r: Db)
    ensures r.credits == db.credits + [NewCredit(me, -1)]
  {
    var d := Admit(db, me, c).0;
    d.(credits := d.credits + [NewCredit(me, -1)])
  }

  /** `book_class` by user `me`; the result is the id of the CONFIRMED row. */
  function BookClass(db: Db, me: Id, c: Id, now: int): (Db, Result<Id>)
    requires me in db.users
  {
    if db.users[me].isTrial then (db, Err(TrialAccount))
    else if Paused(db) then (db, Err(ReservationsPaused))
    else if c !in db.classes then (db, Err(ClassNotFound))
    else if db.classes[c].startTime < now then (db, Err(ClassPast))
    else
      var existing := RowFor(db, me, c);
      if existing.Some? && db.bookings[existing.value].status == Confirmed then (db, Err(AlreadyBooked))
      else if Balance(db.credits, me, now) < 1 then (db, Err(NoCredits))
      else if ConfirmedCount(db.bookings, c) >= db.classes[c].maxSlots then (db, Err(ClassFull))
      else
        (Charged(db, me, c), Ok(Admit(db, me, c).1))
  }

  /** What `manual_book` reports: whether a row was reactivated, and its `user_created` flag. */
  datatype ManualOutcome = ManualOutcome(reactivated: bool, userCreated: bool)

  /** The checks of `manual_book` once its user is resolved: capacity, then a CONFIRMED duplicate. */
  function ManualAdmit(d: Db, c: Id, who: Id, userCreated: bool): (r: (Db, Result<ManualOutcome>))
    requires c in d.classes
    ensures r.0.credits == d.credits && r.0.users == d.users && r.0.classes == d.classes
    ensures r.1.Err? ==> r.0 == d
  {
    if ConfirmedCount(d.bookings, c) >= d.classes[c].maxSlots then (d, Err(ClassFull))
    else
      var existing := RowFor(d, who, c);
      if existing.Some? && d.bookings[existing.value].status == Confirmed then (d, Err(AlreadyBooked))
      else (Admit(d, who, c).0, Ok(ManualOutcome(existing.Some?, userCreated)))
  }

  /** `manual_book`: the shadow a resolution commits stays even when a later check rejects. */
  function ManualBook(db: Db, c: Id, userId: Option<Id>, dni: Option<string>, fullName: Option<string>, isTrial: bool)
    : (Db, Result<ManualOutcome>)
  {
    if c !in db.classes then (db, Err(ClassNotFound))
    else
      var (d, who) := ResolveForBooking(db, userId, dni, fullName, isTrial);
      ResolveForBookingShape(db, userId, dni, fullName, isTrial);
      if who.Err? then (d, Err(who.error))
      else ManualAdmit(d, c, who.value, userId.None?)
  }

  // ---------------------------------------------------------------------------
  // book_class

  /** The rejections of `book_class`, each exactly when the earlier checks pass and its own fails; none changes anything. */
  lemma BookClassRejections(db: Db, me: Id, c: Id, now: int)
    requires me in db.users
    ensures var r := BookClass(db, me, c, now).1;
      && (r == Err(TrialAccount) <==> db.users[me].isTrial)
      && (r == Err(ReservationsPaused) <==> !db.users[me].isTrial && Paused(db))
      && (r == Err(ClassNotFound) <==> !db.users[me].isTrial && !Paused(db) && c !in db.classes)
      && (r == Err(ClassPast) <==>
            !db.users[me].isTrial && !Paused(db) && c in db.classes && db.classes[c].startTime < now)
    ensures BookClass(db, me, c, now).1.Err? ==> BookClass(db, me, c, now).0 == db
  {
  }

  /** Past the first four checks: a CONFIRMED row, then the balance, then the capacity. */
  lemma BookClassLaterRejections(db: Db, me: Id, c: Id, now: int)
    requires me in db.users && !db.users[me].isTrial && !Paused(db)
    requires c in db.classes && db.classes[c].startTime >= now
    ensures var r := BookClass(db, me, c, now).1;
      var confirmed := RowFor(db, me, c).Some? && db.bookings[RowFor(db, me, c).value].status == Confirmed;
      && (r == Err(AlreadyBooked) <==> confirmed)
      && (r == Err(NoCredits) <==> !confirmed && Balance(db.credits, me, now) < 1)
      && (r == Err(ClassFull) <==>
            !confirmed && Balance(db.credits, me, now) >= 1 && ConfirmedCount(db.bookings, c) >= db.classes[c].maxSlots)
      && (r.Ok? <==>
            !confirmed && Balance(db.credits, me, now) >= 1 && ConfirmedCount(db.bookings, c) < db.classes[c].maxSlots)
  {
  }

  /** A CONFIRMED row for the user in any stored booking is found by the duplicate check. */
  lemma ConfirmedRowIsFound(db: Db, me: Id, c: Id, k: Id)
    requires BookingPairsUnique(db.bookings) && forall j :: j in db.bookings ==> j < db.nextId
    requires k in db.bookings && db.bookings[k].user == me && db.bookings[k].gymClass == c
    ensures RowFor(db, me, c) == Some(k)
  {
    assert k < db.nextId;
  }

  /** After admission exactly one row links the user to the class, and it is CONFIRMED; no second row appears. */
  lemma AdmitLeavesOneRow(db: Db, user: Id, c: Id)
    requires BookingPairsUnique(db.bookings) && forall j :: j in db.bookings ==> j < db.nextId
    ensures var (d, k) := Admit(db, user, c);
      && k in d.bookings && d.bookings[k].user == user && d.bookings[k].gymClass == c
      && d.bookings[k].status == Confirmed && d.bookings[k].cancelledAt.None?
      && (forall j :: j in d.bookings && d.bookings[j].user == user && d.bookings[j].gymClass == c ==> j == k)
      && (RowFor(db, user, c).Some? ==> d.bookings.Keys == db.bookings.Keys && d.nextId == db.nextId)
      && (forall j :: j in db.bookings && j != k ==> j in d.bookings && d.bookings[j] == db.bookings[j])
      && BookingPairsUnique(d.bookings)
  {
    match RowFor(db, user, c)
    case Some(k) =>
      PairsKeptByRelabel(db.bookings, k, Confirm(db.bookings[k]));
    case None =>
      InsertKeepsPairs(db, NewBooking(user, c));
  }

  /** Rewriting a row without changing its user or class keeps the pairs unique. */
  lemma PairsKeptByRelabel(bs: map<Id, Booking>, k: Id, b: Booking)
    requires BookingPairsUnique(bs) && k in bs && b.user == bs[k].user && b.gymClass == bs[k].gymClass
    ensures BookingPairsUnique(bs[k := b])
  {
    var r := bs[k := b];
    forall i, j | i in r && j in r && i != j
      ensures r[i].user != r[j].user || r[i].gymClass != r[j].gymClass
    {
      assert i in bs && j in bs;
    }
  }

  /** Admission keeps every integrity rule. */
  lemma AdmitKeepsValid(db: Db, user: Id, c: Id)
    requires Valid(db) && user in db.users && c in db.classes
    ensures Valid(Admit(db, user, c).0)
  {
    match RowFor(db, user, c)
    case Some(k) =>
      var bs := db.bookings[k := Confirm(db.bookings[k])];
      RelabelKeepsValid(db, bs);
    case None =>
      InsertBookingKeepsValid(db, user, c);
  }

  /** Admission raises the confirmed count of the class by exactly one when the row was not CONFIRMED. */
  lemma AdmitCounts(db: Db, user: Id, c: Id)
    requires RowFor(db, user, c).Some? ==> db.bookings[RowFor(db, user, c).value].status != Confirmed
    requires forall j :: j in db.bookings ==> j < db.nextId
    ensures ConfirmedCount(Admit(db, user, c).0.bookings, c) == ConfirmedCount(db.bookings, c) + 1
  {
    match RowFor(db, user, c)
    case Some(k) =>
      ConfirmedCountUp(db.bookings, k, Confirm(db.bookings[k]));
    case None =>
      ConfirmedCountUp(db.bookings, db.nextId, NewBooking(user, c));
  }

  /**
   * A successful `book_class` leaves one CONFIRMED row for (user, class), appends exactly one -1 entry,
   * lowers the user's balance by one and keeps the confirmed count within `max_slots`.
   */
  lemma BookClassSucceeds(db: Db, me: Id, c: Id, now: int)
    requires me in db.users && BookingPairsUnique(db.bookings) && forall j :: j in db.bookings ==> j < db.nextId
    requires BookClass(db, me, c, now).1.Ok?
    ensures var (d, r) := BookClass(db, me, c, now);
      && c in db.classes
      && r.value in d.bookings && d.bookings[r.value].user == me && d.bookings[r.value].gymClass == c
      && d.bookings[r.value].status == Confirmed
      && (forall j :: j in d.bookings && d.bookings[j].user == me && d.bookings[j].gymClass == c ==> j == r.value)
      && (RowFor(db, me, c).Some? ==> d.bookings.Keys == db.bookings.Keys)
      && d.credits == db.credits + [NewCredit(me, -1)]
      && Balance(d.credits, me, now) == Balance(db.credits, me, now) - 1
      && ConfirmedCount(d.bookings, c) == ConfirmedCount(db.bookings, c) + 1
      && ConfirmedCount(d.bookings, c) <= db.classes[c].maxSlots
  {
    AdmitLeavesOneRow(db, me, c);
    AdmitCounts(db, me, c);
    DebitLowersByOne(db.credits, me, me, now);
  }

  /** `book_class` keeps every integrity rule. */
  lemma BookClassKeepsValid(db: Db, me: Id, c: Id, now: int)
    requires Valid(db) && me in db.users
    ensures Valid(BookClass(db, me, c, now).0)
  {
    if BookClass(db, me, c, now).1.Ok? {
      assert c in db.classes && BookClass(db, me, c, now).0 == Charged(db, me, c);
      ChargedKeepsValid(db, me, c);
    }
  }

  lemma ChargedKeepsValid(db: Db, me: Id, c: Id)
    requires Valid(db) && me in db.users && c in db.classes
    ensures Valid(Charged(db, me, c))
  {
    AdmitKeepsValid(db, me, c);
    AppendCreditsKeepValid(Admit(db, me, c).0, [NewCredit(me, -1)]);
  }

  /** `manual_book` keeps every integrity rule. */
  lemma ManualBookKeepsValid(db: Db, c: Id, userId: Option<Id>, dni: Option<string>, fullName: Option<string>, isTrial: bool)
    requires Valid(db)
    ensures Valid(ManualBook(db, c, userId, dni, fullName, isTrial).0)
  {
    if c in db.classes {
      var (d, who) := ResolveForBooking(db, userId, dni, fullName, isTrial);
      ResolveForBookingShape(db, userId, dni, fullName, isTrial);
      ResolveForBookingKeepsValid(db, userId, dni, fullName, isTrial);
      if who.Ok? {
        ManualAdmitKeepsValid(d, c, who.value, userId.None?);
      }
    }
  }

  lemma ManualAdmitKeepsValid(d: Db, c: Id, who: Id, userCreated: bool)
    requires Valid(d) && c in d.classes && who in d.users
    ensures Valid(ManualAdmit(d, c, who, userCreated).0)
  {
    if ManualAdmit(d, c, who, userCreated).1.Ok? {
      AdmitKeepsValid(d, who, c);
    }
  }

  // ---------------------------------------------------------------------------
  // manual_book

  /** `manual_book` never touches the ledger or the class table; a rejection leaves the bookings as they were. */
  lemma ManualBookNoDebit(db: Db, c: Id, userId: Option<Id>, dni: Option<string>, fullName: Option<string>, isTrial: bool)
    ensures var r := ManualBook(db, c, userId, dni, fullName, isTrial);
      && r.0.credits == db.credits && r.0.classes == db.classes
      && (r.1.Err? ==> r.0.bookings == db.bookings)
      && (r.1 == Err(ClassNotFound) <==> c !in db.classes)
  {
    ResolveForBookingShape(db, userId, dni, fullName, isTrial);
  }

  /** A full class is rejected before the duplicate check, even for a user already CONFIRMED in it. */
  lemma ManualBookCapacityFirst(db: Db, c: Id, k: Id)
    requires c in db.classes && k in db.users
    requires ConfirmedCount(db.bookings, c) >= db.classes[c].maxSlots
    ensures ManualBook(db, c, Some(k), None, None, false) == (db, Err(ClassFull))
  {
  }

  /**
   * Below capacity, a CONFIRMED row of the resolved user is rejected, a cancelled one reactivated in
   * place (no new id) and otherwise a row inserted; `user_created` reports that no user id was given.
   */
  lemma ManualAdmitCases(d: Db, c: Id, who: Id, userCreated: bool)
    requires c in d.classes && ConfirmedCount(d.bookings, c) < d.classes[c].maxSlots
    ensures var (r, out) := ManualAdmit(d, c, who, userCreated);
      match RowFor(d, who, c)
      case Some(j) =>
        if d.bookings[j].status == Confirmed then r == d && out == Err(AlreadyBooked)
        else && out == Ok(ManualOutcome(true, userCreated))
             && r.bookings.Keys == d.bookings.Keys && r.nextId == d.nextId
             && r.bookings[j] == d.bookings[j].(status := Confirmed, cancelledAt := None)
      case None =>
        && out == Ok(ManualOutcome(false, userCreated))
        && r.bookings == d.bookings[d.nextId := Booking(who, c, Confirmed, false, None)]
  {
  }

  /** A shadow committed by the resolution survives a later rejection. */
  lemma ShadowSurvivesRejection(db: Db, c: Id, dni: string, fullName: string, isTrial: bool)
    requires c in db.classes && dni != "" && fullName != ""
    requires UserByDni(db, Strip(dni)).None? && UserByEmail(db, PlaceholderEmail(Strip(dni))).None?
    requires !ClashesWith(db.users, Shadow(Strip(dni), fullName, isTrial), None)
    requires ConfirmedCount(db.bookings, c) >= db.classes[c].maxSlots
    ensures var (r, out) := ManualBook(db, c, None, Some(dni), Some(fullName), isTrial);
      && out == Err(ClassFull)
      && db.nextId in r.users && r.users[db.nextId] == Shadow(Strip(dni), fullName, isTrial)
  {
    ResolveCreatesShadow(db, dni, fullName, isTrial);
  }

  /** A successful manual booking leaves one CONFIRMED row for the user and keeps the count within `max_slots`. */
  lemma ManualBookSucceeds(db: Db, c: Id, userId: Option<Id>, dni: Option<string>, fullName: Option<string>, isTrial: bool)
    requires BookingPairsUnique(db.bookings) && forall j :: j in db.bookings ==> j < db.nextId
    requires ManualBook(db, c, userId, dni, fullName, isTrial).1.Ok?
    ensures c in db.classes
    ensures var (d, who) := ResolveForBooking(db, userId, dni, fullName, isTrial);
      var r := ManualBook(db, c, userId, dni, fullName, isTrial).0;
      && who.Ok?
      && (exists k :: k in r.bookings && r.bookings[k].user == who.value && r.bookings[k].gymClass == c &&
                      r.bookings[k].status == Confirmed)
      && ConfirmedCount(r.bookings, c) == ConfirmedCount(db.bookings, c) + 1
      && ConfirmedCount(r.bookings, c) <= db.classes[c].maxSlots
  {
    ResolveForBookingShape(db, userId, dni, fullName, isTrial);
    var (d, who) := ResolveForBooking(db, userId, dni, fullName, isTrial);
    assert d.bookings == db.bookings && d.classes == db.classes && d.nextId >= db.nextId;
    AdmitLeavesOneRow(d, who.value, c);
    AdmitCounts(d, who.value, c);
    var (r, k) := Admit(d, who.value, c);
    assert k in r.bookings && r.bookings[k].user == who.value && r.bookings[k].gymClass == c;
  }
}
