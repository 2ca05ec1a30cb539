/**
 * The cancellation policy: the client's `cancel_booking` (refund only
 * inside the time window), the administrator's `admin_cancel_booking`
 * (always a refund), and the two account actions that cancel every future
 * CONFIRMED booking without a refund: `toggle_user_disabled` when it
 * disables, and `delete_my_account`, which also anonymises the user.
 */
module Cancellation {
  import opened Wrappers
  import opened Models
  import opened Utils
  import opened Text
  import opened Ledger
  import opened Store
  import opened Effects

  const CancelMinutesKey: string := "cancel_minutes_before"
  const DefaultCancelMinutes: int := 10

  /** The instant from which a client cancellation no longer refunds. */
  function RefundDeadline(db: Db, start: int): int
  {
    start - 60 * GetSettingInt(db.settings, CancelMinutesKey, DefaultCancelMinutes)
  }

  /** `cancel_booking` by user `me`; the result says whether the credit was refunded. */
  function CancelBooking(db: Db, me: Id, k: Id, now: int): (Db, Result<bool>)
    requires me in db.users
  {
    if db.users[me].isTrial then (db, Err(TrialAccount))
    else if k !in db.bookings || db.bookings[k].user != me then (db, Err(BookingNotFound))
    else if db.bookings[k].status != Confirmed then (db, Err(BookingNotConfirmed))
    else if db.bookings[k].gymClass !in db.classes then (db, Err(ClassNotFound))
    else
      var start := db.classes[db.bookings[k].gymClass].startTime;
      if start <= now then (db, Err(ClassStarted))
      else
        var refund := now < RefundDeadline(db, start);
        var d := db.(bookings := db.bookings[k := Cancel(db.bookings[k], now)]);
        (if refund then d.(credits := d.credits + [NewCredit(me, 1)]) else d, Ok(refund))
  }

  /** `admin_cancel_booking`: any CONFIRMED booking, always refunded to its owner. */
  function AdminCancelBooking(db: Db, k: Id, now: int): (Db, Result<bool>)
  {
    if k !in db.bookings then (db, Err(BookingNotFound))
    else if db.bookings[k].status != Confirmed then (db, Err(BookingNotConfirmed))
    else
      (db.(bookings := db.bookings[k := Cancel(db.bookings[k], now)],
           credits := db.credits + [NewCredit(db.bookings[k].user, 1)]), Ok(true))
  }

  /** Every future CONFIRMED booking of `user` cancelled, with no ledger entry. */
  function CancelFuture(db: Db, user: Id, now: int): (r: Db)
    ensures r.users == db.users && r.classes == db.classes && r.schedules == db.schedules
    ensures r.credits == db.credits && r.nextId == db.nextId && r.bookings.Keys == db.bookings.Keys
  {
    db.(bookings := CancelAll(db.bookings, FutureConfirmedOf(db, user, now), now))
  }

  /** `toggle_user_disabled`: flips the flag; disabling also cancels the future bookings. Returns the new flag. */
  function ToggleUserDisabled(db: Db, u: Id, now: int): (Db, Result<bool>)
  {
    if u !in db.users then (db, Err(UserNotFound))
    else
      var disable := !db.users[u].disabled;
      var d := db.(users := db.users[u := db.users[u].(disabled := disable)]);
      (if disable then CancelFuture(d, u, now) else d, Ok(disable))
  }

  const DeletedName: string := "Usuario Eliminado"
  const DeletedDomain: string := "@pilatesallcanning.com"

  /** The anonymised record `delete_my_account` writes over user `me`. */
  function Anonymised(u: User, me: Id, now: int): User
  {
    u.(isDeleted := true, disabled := true, fullName := Some(DeletedName), dni := None, phone := None,
       socialId := Some("deleted_" + IntToString(me)), certificate := None,
       email := "deleted_" + IntToString(me) + "_" + IntToString(now) + DeletedDomain)
  }

  /** `delete_my_account`: a clash on a unique column at commit is rolled back. */
  function DeleteMyAccount(db: Db, me: Id, now: int): (Db, Result<()>)
    requires me in db.users
  {
    var u := Anonymised(db.users[me], me, now);
    if ClashesWith(db.users, u, Some(me)) then (db, Err(IntegrityError))
    else (CancelFuture(db.(users := db.users[me := u]), me, now), Ok(()))
  }

  // ---------------------------------------------------------------------------
  // cancel_booking

  /** The rejections of `cancel_booking`, each exactly when the earlier checks pass and its own fails; none changes anything. */
  lemma CancelBookingRejections(db: Db, me: Id, k: Id, now: int)
    requires me in db.users
    ensures var (r, out) := CancelBooking(db, me, k, now);
      var owned := k in db.bookings && db.bookings[k].user == me;
      && (out == Err(TrialAccount) <==> db.users[me].isTrial)
      && (out == Err(BookingNotFound) <==> !db.users[me].isTrial && !owned)
      && (out == Err(BookingNotConfirmed) <==> !db.users[me].isTrial && owned && db.bookings[k].status != Confirmed)
      && (out == Err(ClassStarted) <==>
            && !db.users[me].isTrial && owned && db.bookings[k].status == Confirmed
            && db.bookings[k].gymClass in db.classes && db.classes[db.bookings[k].gymClass].startTime <= now)
      && (out.Err? ==> r == db)
  {
  }

  /**
   * A successful `cancel_booking` cancels the booking at `now` whatever the timing, frees its slot, and
   * appends one +1 entry exactly when `now` is before the deadline (10 minutes before the start by default).
   */
  lemma CancelBookingEffect(db: Db, me: Id, k: Id, now: int)
    requires me in db.users
    requires CancelBooking(db, me, k, now).1.Ok?
    ensures var (r, out) := CancelBooking(db, me, k, now);
      var start := db.classes[db.bookings[k].gymClass].startTime;
      && k in db.bookings && db.bookings[k].user == me && db.bookings[k].status == Confirmed
      && now < start
      && r.bookings == db.bookings[k := Cancel(db.bookings[k], now)]
      && (out.value <==> now < RefundDeadline(db, start))
      && r.credits == db.credits + (if out.value then [NewCredit(me, 1)] else [])
      && Balance(r.credits, me, now) == Balance(db.credits, me, now) + (if out.value then 1 else 0)
      && ConfirmedCount(r.bookings, db.bookings[k].gymClass) == ConfirmedCount(db.bookings, db.bookings[k].gymClass) - 1
      && r.users == db.users && r.classes == db.classes && r.schedules == db.schedules
  {
    ConfirmedCountDown(db.bookings, k, now);
    RefundRaisesByOne(db.credits, me, me, now);
    assert db.credits + [] == db.credits;
  }

  /** Without a stored setting the window closes ten minutes before the start. */
  lemma DefaultWindow(db: Db, start: int)
    requires CancelMinutesKey !in db.settings
    ensures RefundDeadline(db, start) == start - 600
  {
    AbsentKeyGivesDefault(db.settings, CancelMinutesKey, DefaultCancelMinutes, false);
  }

  /** Cancelling one booking in place keeps every integrity rule. */
  lemma CancelOneKeepsValid(db: Db, k: Id, now: int)
    requires Valid(db) && k in db.bookings
    ensures Valid(db.(bookings := db.bookings[k := Cancel(db.bookings[k], now)]))
  {
    var bs := db.bookings[k := Cancel(db.bookings[k], now)];
    forall j | j in bs ensures bs[j].user == db.bookings[j].user && bs[j].gymClass == db.bookings[j].gymClass
                                && StatusStamped(bs[j]) {
      if j != k {
        assert bs[j] == db.bookings[j];
      }
    }
    RelabelKeepsValid(db, bs);
  }

  /** A cancellation followed by an optional refund to a stored user keeps every integrity rule. */
  lemma CancelThenRefundKeepsValid(db: Db, d: Db, k: Id, now: int, refund: bool, to: Id, r: Db)
    requires Valid(db) && k in db.bookings && to in db.users
    requires d == db.(bookings := db.bookings[k := Cancel(db.bookings[k], now)])
    requires r == if refund then d.(credits := d.credits + [NewCredit(to, 1)]) else d
    ensures Valid(r)
  {
    CancelOneKeepsValid(db, k, now);
    if refund {
      AppendCreditsKeepValid(d, [NewCredit(to, 1)]);
    }
  }

  /** `cancel_booking` keeps every integrity rule. */
  lemma CancelBookingKeepsValid(db: Db, me: Id, k: Id, now: int)
    requires Valid(db) && me in db.users
    ensures Valid(CancelBooking(db, me, k, now).0)
  {
    var (r, out) := CancelBooking(db, me, k, now);
    if out.Ok? {
      var d := db.(bookings := db.bookings[k := Cancel(db.bookings[k], now)]);
      CancelThenRefundKeepsValid(db, d, k, now, out.value, me, r);
    }
  }

  // ---------------------------------------------------------------------------
  // admin_cancel_booking

  /** `admin_cancel_booking` refunds every cancellation it makes; its rejections change nothing. */
  lemma AdminCancelEffect(db: Db, k: Id, now: int)
    ensures var (r, out) := AdminCancelBooking(db, k, now);
      && (out == Err(BookingNotFound) <==> k !in db.bookings)
      && (out == Err(BookingNotConfirmed) <==> k in db.bookings && db.bookings[k].status != Confirmed)
      && (out.Err? ==> r == db)
      && (out.Ok? ==>
            && out.value
            && r.bookings == db.bookings[k := Cancel(db.bookings[k], now)]
            && r.credits == db.credits + [NewCredit(db.bookings[k].user, 1)]
            && Balance(r.credits, db.bookings[k].user, now) == Balance(db.credits, db.bookings[k].user, now) + 1)
  {
    if k in db.bookings {
      RefundRaisesByOne(db.credits, db.bookings[k].user, db.bookings[k].user, now);
    }
  }

  /** `admin_cancel_booking` keeps every integrity rule. */
  lemma AdminCancelKeepsValid(db: Db, k: Id, now: int)
    requires Valid(db)
    ensures Valid(AdminCancelBooking(db, k, now).0)
  {
    if k in db.bookings && db.bookings[k].status == Confirmed {
      var d := db.(bookings := db.bookings[k := Cancel(db.bookings[k], now)]);
      assert db.bookings[k].user in db.users;
      CancelThenRefundKeepsValid(db, d, k, now, true, db.bookings[k].user, AdminCancelBooking(db, k, now).0);
    }
  }

  // ---------------------------------------------------------------------------
  // Cancelling the future bookings of an account

  /** The cancelled bookings are exactly the user's CONFIRMED ones in classes starting after `now`. */
  lemma CancelFutureEffect(db: Db, user: Id, now: int)
    requires forall k :: k in db.bookings ==> k < db.nextId
    ensures forall k :: k in db.bookings ==>
      CancelFuture(db, user, now).bookings[k] ==
        if && db.bookings[k].user == user && db.bookings[k].status == Confirmed
           && db.bookings[k].gymClass in db.classes && db.classes[db.bookings[k].gymClass].startTime > now
        then Cancel(db.bookings[k], now) else db.bookings[k]
  {
  }

  /** Afterwards the user holds no CONFIRMED booking in a class starting after `now`. */
  lemma CancelFutureClears(db: Db, user: Id, now: int)
    requires forall k :: k in db.bookings ==> k < db.nextId
    ensures forall k :: k in CancelFuture(db, user, now).bookings ==>
      var b := CancelFuture(db, user, now).bookings[k];
      b.user == user && b.gymClass in db.classes && db.classes[b.gymClass].startTime > now ==> b.status == Cancelled
  {
    CancelFutureEffect(db, user, now);
  }

  /** `toggle_user_disabled` flips only the flag of the user, never touches the ledger, and cancels only when disabling. */
  lemma ToggleEffect(db: Db, u: Id, now: int)
    requires forall k :: k in db.bookings ==> k < db.nextId
    ensures var (r, out) := ToggleUserDisabled(db, u, now);
      && (out == Err(UserNotFound) <==> u !in db.users)
      && (out.Err? ==> r == db)
      && r.credits == db.credits
      && (out.Ok? ==>
            && out.value == !db.users[u].disabled
            && r.users == db.users[u := db.users[u].(disabled := out.value)]
            && (!out.value ==> r.bookings == db.bookings)
            && (out.value ==> r.bookings == CancelFuture(db, u, now).bookings))
  {
    if u in db.users {
      var d := db.(users := db.users[u := db.users[u].(disabled := !db.users[u].disabled)]);
      assert FutureConfirmedOf(d, u, now) == FutureConfirmedOf(db, u, now) by {
        SelectSame(db.nextId,
          k => k in d.bookings && d.bookings[k].user == u && d.bookings[k].status == Confirmed &&
               d.bookings[k].gymClass in d.classes && d.classes[d.bookings[k].gymClass].startTime > now,
          k => k in db.bookings && db.bookings[k].user == u && db.bookings[k].status == Confirmed &&
               db.bookings[k].gymClass in db.classes && db.classes[db.bookings[k].gymClass].startTime > now);
      }
    }
  }

  /** Toggling twice restores the user's record. */
  lemma ToggleTwiceRestoresUser(db: Db, u: Id, now: int, later: int)
    requires u in db.users
    ensures var d := ToggleUserDisabled(db, u, now).0;
      ToggleUserDisabled(d, u, later).0.users == db.users
  {
    var d := ToggleUserDisabled(db, u, now).0;
    assert d.users == db.users[u := db.users[u].(disabled := !db.users[u].disabled)];
  }

  /** Cancelling the future bookings keeps every integrity rule. */
  lemma CancelFutureKeepsValid(db: Db, user: Id, now: int)
    requires Valid(db)
    ensures Valid(CancelFuture(db, user, now))
  {
    CancelAllKeepsValid(db, FutureConfirmedOf(db, user, now), now);
  }

  /** `toggle_user_disabled` keeps every integrity rule. */
  lemma ToggleKeepsValid(db: Db, u: Id, now: int)
    requires Valid(db)
    ensures Valid(ToggleUserDisabled(db, u, now).0)
  {
    if u in db.users {
      var v := db.users[u].(disabled := !db.users[u].disabled);
      SameKeysNoClash(db.users, u, v);
      UpdateUserKeepsValid(db, u, v);
      CancelFutureKeepsValid(db.(users := db.users[u := v]), u, now);
    }
  }

  // ---------------------------------------------------------------------------
  // delete_my_account

  /**
   * `delete_my_account` anonymises the user (flags set, personal data cleared, placeholder e-mail and social
   * id), cancels the future CONFIRMED bookings and leaves the ledger alone.
   */
  lemma DeleteMyAccountEffect(db: Db, me: Id, now: int)
    requires me in db.users && forall k :: k in db.bookings ==> k < db.nextId
    ensures var (r, out) := DeleteMyAccount(db, me, now);
      && (out.Err? ==> r == db && out == Err(IntegrityError))
      && r.credits == db.credits
      && (out.Ok? ==>
            && r.users == db.users[me := Anonymised(db.users[me], me, now)]
            && r.users[me].isDeleted && r.users[me].disabled
            && r.users[me].dni.None? && r.users[me].phone.None? && r.users[me].certificate.None?
            && r.users[me].fullName == Some("Usuario Eliminado")
            && r.users[me].email == "deleted_" + IntToString(me) + "_" + IntToString(now) + "@pilatesallcanning.com"
            && (forall k :: k in db.bookings ==>
                  r.bookings[k] ==
                    if && db.bookings[k].user == me && db.bookings[k].status == Confirmed
                       && db.bookings[k].gymClass in db.classes && db.classes[db.bookings[k].gymClass].startTime > now
                    then Cancel(db.bookings[k], now) else db.bookings[k]))
  {
    var u := Anonymised(db.users[me], me, now);
    if !ClashesWith(db.users, u, Some(me)) {
      var d := db.(users := db.users[me := u]);
      CancelFutureEffect(d, me, now);
    }
  }

  /** `delete_my_account` keeps every integrity rule. */
  lemma DeleteMyAccountKeepsValid(db: Db, me: Id, now: int)
    requires Valid(db) && me in db.users
    ensures Valid(DeleteMyAccount(db, me, now).0)
  {
    var u := Anonymised(db.users[me], me, now);
    if !ClashesWith(db.users, u, Some(me)) {
      UpdateUserKeepsValid(db, me, u);
      CancelFutureKeepsValid(db.(users := db.users[me := u]), me, now);
    }
  }
}
