/**
 * The administrator endpoints as methods on the mutable session. Each one
 * does what its endpoint does, step by step, and its postcondition ties the
 * resulting tables and reply to the specification function of the same
 * name.
 */
module AdminEndpoints {
  import opened Wrappers
  import opened Models
  import opened Calendar
  import opened Store
  import opened Ledger
  import opened Effects
  import Catalog
  import Shadows
  import Admission
  import Schedules
  import Cancellation
  import Accounts
  import Views

  /** `create_gym_class`: insert the instances week by week, then auto-book each one. */
  method CreateGymClass(db: Database, req: Catalog.ClassRequest, holidays: set<int>, now: int) returns (r: Result<Id>)
    modifies db
    ensures (db.Snapshot(), r) == Catalog.CreateGymClass(old(db.Snapshot()), req, holidays, now)
  {
    if req.start <= now {
      return Err(ClassInPast);
    }
    var d := db.Snapshot();
    d := d.(instructors := d.instructors + {req.instructor});
    var group: Option<Id> := None;
    if req.recurrence {
      group := Some(d.nextId);
      d := d.(nextId := d.nextId + 1);
    }
    var weeks: nat := if req.recurrence then 12 else 1;
    var created;
    d, created := InsertSeries(d, req, group, weeks);
    d := AutoBookCreated(d, created, holidays);
    db.Commit(d);
    return Ok(created[0]);
  }

  /** The creation loop: one instance per week, each under the next id. */
  method InsertSeries(d0: Db, req: Catalog.ClassRequest, group: Option<Id>, weeks: nat) returns (d: Db, created: seq<Id>)
    ensures d == Catalog.InsertInstances(d0, req, group, weeks)
    ensures created == Catalog.Consecutive(d0.nextId, weeks)
    ensures forall c :: c in created ==> c in d.classes
  {
    d, created := d0, [];
    var current := req.start;
    for i := 0 to weeks
      invariant d == Catalog.InsertInstances(d0, req, group, i)
      invariant created == Catalog.Consecutive(d0.nextId, i)
      invariant current == req.start + i * SecondsPerWeek
    {
      var id := d.nextId;
      d := d.(classes := d.classes[id := GymClass(req.name, req.instructor, current, req.maxSlots,
                                                  req.durationMinutes, group, req.recurrence && i == 0, None)],
              nextId := d.nextId + 1);
      created := created + [id];
      current := current + SecondsPerWeek;
    }
    Catalog.InstancesPresent(d0, req, group, weeks);
  }

  /** The auto-booking loop over the created classes. */
  method AutoBookCreated(d0: Db, created: seq<Id>, holidays: set<int>) returns (d: Db)
    requires forall c :: c in created ==> c in d0.classes
    ensures d == Catalog.AutoBookAll(d0, created, holidays)
  {
    d := d0;
    for j := 0 to |created|
      invariant d == Catalog.AutoBookAll(d0, created[..j], holidays)
    {
      assert created[..j + 1][..j] == created[..j];
      assert created[j] in created;
      var c := created[j];
      var startTime := d.classes[c].startTime;
      var fixedList := Catalog.MatchingSchedules(d, startTime);
      d := AutoBookSchedules(d, c, fixedList, IsHoliday(startTime, holidays));
    }
    assert created[..|created|] == created;
  }

  /** The auto-booking loop over the matching rules of one new class. */
  method AutoBookSchedules(d0: Db, c: Id, fixedList: seq<Id>, holiday: bool) returns (d: Db)
    requires forall s :: s in fixedList ==> s in d0.schedules
    ensures d == Catalog.AutoBookClass(d0, c, fixedList, holiday)
  {
    d := d0;
    for k := 0 to |fixedList|
      invariant d == Catalog.AutoBookClass(d0, c, fixedList[..k], holiday)
    {
      d := AutoBookRule(d0, d, c, fixedList, k, holiday);
    }
    assert fixedList[..|fixedList|] == fixedList;
  }

  /** One pass of that loop: a +1 entry on a holiday, otherwise a booking unless a row exists. */
  method AutoBookRule(d0: Db, d1: Db, c: Id, fixedList: seq<Id>, k: nat, holiday: bool) returns (d: Db)
    requires forall s :: s in fixedList ==> s in d0.schedules
    requires k < |fixedList|
    requires d1 == Catalog.AutoBookClass(d0, c, fixedList[..k], holiday)
    ensures d == Catalog.AutoBookClass(d0, c, fixedList[..k + 1], holiday)
  {
    var p := fixedList[..k];
    assert fixedList[..k + 1][..k] == p;
    assert forall s :: s in fixedList[..k + 1] ==> s in fixedList;
    var fixed := d1.schedules[fixedList[k]];
    if holiday {
      assert fixedList[..k + 1] == p + [fixedList[k]];
      assert Catalog.ScheduleOwners(d0.schedules, fixedList[..k + 1]) ==
        Catalog.ScheduleOwners(d0.schedules, p) + [fixed.user];
      RefundsSnoc(d0.credits, Catalog.ScheduleOwners(d0.schedules, p), fixed.user);
      d := d1.(credits := d1.credits + [NewCredit(fixed.user, 1)]);
    } else {
      d := d1;
      var existing := RowFor(d, fixed.user, c);
      if existing.None? {
        d := InsertBooking(d, NewBooking(fixed.user, c));
      }
      assert d == Catalog.BookOne(d1, fixed.user, c);
    }
  }

  /** `update_gym_class`: assign the fields given, then check the instructor; a rejection is rolled back. */
  method UpdateGymClass(db: Database, c: Id, patch: Catalog.ClassPatch) returns (r: Result<GymClass>)
    modifies db
    ensures (db.Snapshot(), r) == Catalog.UpdateGymClass(old(db.Snapshot()), c, patch)
  {
    if c !in db.classes {
      return Err(ClassNotFound);
    }
    var g := db.classes[c];
    if patch.name.Some? {
      g := g.(name := patch.name.value);
    }
    if patch.maxSlots.Some? {
      g := g.(maxSlots := patch.maxSlots.value);
    }
    if patch.durationMinutes.Some? {
      g := g.(durationMinutes := patch.durationMinutes.value);
    }
    if patch.instructor.Some? {
      if patch.instructor.value !in db.instructors {
        return Err(InstructorNotFound);
      }
      g := g.(instructor := patch.instructor.value);
    }
    db.classes := db.classes[c := g];
    return Ok(g);
  }

  /** `delete_gym_class`: stamp each target, cancel its CONFIRMED bookings, refund unless a series. */
  method DeleteGymClass(db: Database, c: Id, cancelSeries: bool, now: int) returns (r: Result<Catalog.CancelOutcome>)
    modifies db
    ensures (db.Snapshot(), r) == Catalog.DeleteGymClass(old(db.Snapshot()), c, cancelSeries, now)
  {
    if c !in db.classes {
      return Err(ClassNotFound);
    }
    if db.classes[c].cancelledAt.Some? {
      return Err(ClassAlreadyCancelled);
    }
    ghost var d0 := db.Snapshot();
    var classIds := Catalog.CancelTargets(db.Snapshot(), c, cancelSeries, now);
    assert forall t :: t in classIds ==> t in d0.classes;
    var refundedCount := CancelEach(db, classIds, !cancelSeries, now);
    assert db.Snapshot() == Catalog.CancelClasses(d0, classIds, !cancelSeries, now);
    return Ok(Catalog.CancelOutcome(|classIds|, refundedCount));
  }

  /** The loop of `delete_gym_class` over its targets. */
  method CancelEach(db: Database, classIds: seq<Id>, refund: bool, now: int) returns (refundedCount: nat)
    requires forall t :: t in classIds ==> t in db.classes
    modifies db
    ensures db.Snapshot() == Catalog.CancelClasses(old(db.Snapshot()), classIds, refund, now)
    ensures refundedCount == |db.credits| - |old(db.credits)|
  {
    ghost var d0 := db.Snapshot();
    refundedCount := 0;
    for i := 0 to |classIds|
      invariant db.Snapshot() == Catalog.CancelClasses(d0, classIds[..i], refund, now)
      invariant refundedCount == |db.credits| - |d0.credits|
    {
      assert classIds[..i + 1][..i] == classIds[..i];
      assert classIds[i] in classIds;
      var refunded := CancelOneClass(db, classIds[i], refund, now);
      refundedCount := refundedCount + refunded;
    }
    assert classIds[..|classIds|] == classIds;
  }

  /** One iteration of the `delete_gym_class` loop. */
  method CancelOneClass(db: Database, cid: Id, refund: bool, now: int) returns (refunded: nat)
    requires cid in db.classes
    modifies db
    ensures db.Snapshot() == Catalog.CancelClass(old(db.Snapshot()), cid, refund, now)
    ensures |db.credits| == |old(db.credits)| + refunded
  {
    var d := db.Snapshot();
    d := d.(classes := d.classes[cid := d.classes[cid].(cancelledAt := Some(now))]);
    var bookings := ConfirmedOn(d, cid);
    var bs, cs;
    bs, cs, refunded := CancelBookings(d.bookings, d.credits, bookings, refund, now);
    db.Commit(d.(bookings := bs, credits := cs));
  }

  /** `manual_book`: resolve the user (a created shadow is committed at once), then capacity and duplicate checks. */
  method ManualBook(db: Database, c: Id, userId: Option<Id>, dni: Option<string>, fullName: Option<string>,
                    isTrial: bool) returns (r: Result<Admission.ManualOutcome>)
    modifies db
    ensures (db.Snapshot(), r) == Admission.ManualBook(old(db.Snapshot()), c, userId, dni, fullName, isTrial)
  {
    var d;
    d, r := ManualBookOn(db.Snapshot(), c, userId, dni, fullName, isTrial);
    db.Commit(d);
  }

  /** The steps of `manual_book` on the tables. */
  method ManualBookOn(d0: Db, c: Id, userId: Option<Id>, dni: Option<string>, fullName: Option<string>, isTrial: bool)
    returns (d: Db, r: Result<Admission.ManualOutcome>)
    ensures r == Admission.ManualBook(d0, c, userId, dni, fullName, isTrial).1
    ensures d == Admission.ManualBook(d0, c, userId, dni, fullName, isTrial).0
  {
    if c !in d0.classes {
      return d0, Err(ClassNotFound);
    }
    var resolved := Shadows.ResolveForBooking(d0, userId, dni, fullName, isTrial);
    Shadows.ResolveForBookingShape(d0, userId, dni, fullName, isTrial);
    var who;
    d, who := resolved.0, resolved.1;
    if who.Err? {
      return d, Err(who.error);
    }
    var u := who.value;
    if ConfirmedCount(d.bookings, c) >= d.classes[c].maxSlots {
      return d, Err(ClassFull);
    }
    var existing := RowFor(d, u, c);
    if existing.Some? && d.bookings[existing.value].status == Confirmed {
      return d, Err(AlreadyBooked);
    }
    if existing.Some? {
      var k := existing.value;
      d := d.(bookings := d.bookings[k := Confirm(d.bookings[k])]);
    } else {
      d := InsertBooking(d, NewBooking(u, c));
    }
    return d, Ok(Admission.ManualOutcome(existing.Some?, userId.None?));
  }

  /** `add_fixed_schedule`: resolve the user, place or reactivate the rule, then backfill the future classes. */
  method AddFixedSchedule(db: Database, userId: Option<Id>, dni: Option<string>, fullName: Option<string>,
                          day: DayOfWeek, time: TimeOfDay, now: int) returns (r: Result<Schedules.AddOutcome>)
    modifies db
    ensures (db.Snapshot(), r) == Schedules.AddFixedSchedule(old(db.Snapshot()), userId, dni, fullName, day, time, now)
  {
    var d;
    d, r := AddFixedScheduleOn(db.Snapshot(), userId, dni, fullName, day, time, now);
    db.Commit(d);
  }

  /** The steps of `add_fixed_schedule` on the tables. */
  method AddFixedScheduleOn(d0: Db, userId: Option<Id>, dni: Option<string>, fullName: Option<string>,
                            day: DayOfWeek, time: TimeOfDay, now: int) returns (d: Db, r: Result<Schedules.AddOutcome>)
    ensures (d, r) == Schedules.AddFixedSchedule(d0, userId, dni, fullName, day, time, now)
  {
    var resolved := Shadows.ResolveForSchedule(d0, userId, dni, fullName);
    var who;
    d, who := resolved.0, resolved.1;
    if who.Err? {
      return d, Err(who.error);
    }
    var placed := Schedules.PlaceRule(d, who.value, day, time);
    var d1, s := placed.0, placed.1;
    if s.Err? {
      return d1, Err(s.error);
    }
    var future := Schedules.FutureClasses(d1, now);
    var created;
    d, created := Backfill(d1, who.value, future, day, time);
    return d, Ok(Schedules.AddOutcome(s.value, created));
  }

  /** The backfill loop: a CONFIRMED booking in each matching class where the user has no row, counted. */
  method Backfill(d0: Db, user: Id, q: seq<Id>, day: DayOfWeek, time: TimeOfDay) returns (d: Db, created: nat)
    requires forall c :: c in q ==> c in d0.classes
    ensures d == Schedules.Backfill(d0, user, q, day, time)
    ensures created == Schedules.Booked(d0, d)
  {
    d, created := d0, 0;
    for i := 0 to |q|
      invariant d == Schedules.Backfill(d0, user, q[..i], day, time)
      invariant d.nextId == d0.nextId + created
    {
      assert q[..i + 1][..i] == q[..i];
      assert q[i] in q;
      var c := q[i];
      if Schedules.BackfillMatch(d.classes[c].startTime, day, time) && RowFor(d, user, c).None? {
        d := InsertBooking(d, NewBooking(user, c));
        created := created + 1;
      }
    }
    assert q[..|q|] == q;
  }

  /** `delete_fixed_schedule`: stamp the rule, then release the owner's matching future bookings with refunds. */
  method DeleteFixedSchedule(db: Database, s: Id, now: int) returns (r: Result<Schedules.ReleaseOutcome>)
    modifies db
    ensures (db.Snapshot(), r) == Schedules.DeleteFixedSchedule(old(db.Snapshot()), s, now)
    ensures r.Ok? && Valid(old(db.Snapshot())) ==>
      && s in old(db.schedules)
      && r.value.bookingsCancelled == r.value.creditsRefunded
      && r.value.creditsRefunded == |Schedules.ReleaseTargets(old(db.Snapshot()), old(db.schedules)[s], now)|
  {
    if s !in db.schedules {
      return Err(ScheduleNotFound);
    }
    if db.schedules[s].cancelledAt.Some? {
      return Err(ScheduleAlreadyCancelled);
    }
    var d;
    d, r := ReleaseSchedule(db.Snapshot(), s, now);
    db.Commit(d);
  }

  /** The accepted case: the rule stamped, then the release over the future classes that are not cancelled. */
  method ReleaseSchedule(d0: Db, s: Id, now: int) returns (d: Db, r: Result<Schedules.ReleaseOutcome>)
    requires s in d0.schedules && d0.schedules[s].cancelledAt.None?
    ensures r == Schedules.DeleteFixedSchedule(d0, s, now).1
    ensures d == Schedules.DeleteFixedSchedule(d0, s, now).0
    ensures IdsIssued(d0) && BookingPairsUnique(d0.bookings) ==>
      r == Ok(Schedules.ReleaseOutcome(|Schedules.ReleaseTargets(d0, d0.schedules[s], now)|,
                                       |Schedules.ReleaseTargets(d0, d0.schedules[s], now)|))
  {
    var rule := d0.schedules[s];
    var stamped := d0.(schedules := d0.schedules[s := rule.(cancelledAt := Some(now))]);
    var cancelled, refunded;
    d, cancelled, refunded := ReleaseFuture(stamped, rule, now);
    r := Ok(Schedules.ReleaseOutcome(cancelled, refunded));
    DeleteFixedScheduleAccepted(d0, s, now, d, cancelled);
    if IdsIssued(d0) && BookingPairsUnique(d0.bookings) {
      Schedules.DeleteFixedScheduleEffect(d0, s, now);
    }
  }

  /** The accepted case of the specification, stated on the released tables. */
  lemma DeleteFixedScheduleAccepted(d0: Db, s: Id, now: int, d: Db, n: nat)
    requires s in d0.schedules && d0.schedules[s].cancelledAt.None?
    requires var stamped := d0.(schedules := d0.schedules[s := d0.schedules[s].(cancelledAt := Some(now))]);
      d == Schedules.ReleaseAll(stamped, d0.schedules[s], Schedules.ActiveFutureClasses(stamped, now), now)
      && n == |d.credits| - |stamped.credits|
    ensures Schedules.DeleteFixedSchedule(d0, s, now) == (d, Ok(Schedules.ReleaseOutcome(n, n)))
  {
  }

  /** The release over the future classes that are not cancelled. */
  method ReleaseFuture(d0: Db, rule: FixedSchedule, now: int) returns (d: Db, cancelled: nat, refunded: nat)
    ensures d == Schedules.ReleaseAll(d0, rule, Schedules.ActiveFutureClasses(d0, now), now)
    ensures cancelled == refunded == |d.credits| - |d0.credits|
    ensures BookingPairsUnique(d0.bookings) && (forall k :: k in d0.bookings ==> k < d0.nextId) ==>
      cancelled == |Schedules.ReleasedSet(d0, rule, Schedules.ActiveFutureClasses(d0, now))|
  {
    var future := Schedules.ActiveFutureClasses(d0, now);
    d, cancelled, refunded := Release(d0, rule, future, now);
  }

  /**
   * The release loop: in each exactly matching class the owner's CONFIRMED booking cancelled and refunded;
   * both counters are the number of bookings released.
   */
  method Release(d0: Db, rule: FixedSchedule, q: seq<Id>, now: int) returns (d: Db, cancelled: nat, refunded: nat)
    requires forall c :: c in q ==> c in d0.classes
    ensures d == Schedules.ReleaseAll(d0, rule, q, now)
    ensures cancelled == refunded == |d.credits| - |d0.credits|
    ensures BookingPairsUnique(d0.bookings) && (forall k :: k in d0.bookings ==> k < d0.nextId) ==>
      cancelled == |Schedules.ReleasedSet(d0, rule, q)|
  {
    d, cancelled, refunded := d0, 0, 0;
    for i := 0 to |q|
      invariant d == Schedules.ReleaseAll(d0, rule, q[..i], now)
      invariant cancelled == refunded && |d.credits| == |d0.credits| + cancelled
    {
      assert q[..i + 1][..i] == q[..i];
      assert q[i] in q;
      var c := q[i];
      if Schedules.ReleaseMatch(d.classes[c].startTime, rule) {
        var booking := Schedules.ConfirmedRowFor(d, rule.user, c);
        if booking.Some? {
          var k := booking.value;
          d := d.(bookings := d.bookings[k := Cancel(d.bookings[k], now)]);
          cancelled := cancelled + 1;
          d := d.(credits := d.credits + [NewCredit(rule.user, 1)]);
          refunded := refunded + 1;
        }
      }
    }
    assert q[..|q|] == q;
    if BookingPairsUnique(d0.bookings) && (forall k :: k in d0.bookings ==> k < d0.nextId) {
      Schedules.ReleaseAllCount(d0, rule, q, now);
    }
  }

  /** `toggle_user_disabled`: flip the flag; when disabling, cancel the future CONFIRMED bookings with no refund. */
  method ToggleUserDisabled(db: Database, u: Id, now: int) returns (r: Result<bool>)
    modifies db
    ensures (db.Snapshot(), r) == Cancellation.ToggleUserDisabled(old(db.Snapshot()), u, now)
  {
    if u !in db.users {
      return Err(UserNotFound);
    }
    var disable := !db.users[u].disabled;
    var d := db.Snapshot();
    d := d.(users := d.users[u := d.users[u].(disabled := disable)]);
    if disable {
      var future := FutureConfirmedOf(d, u, now);
      var bs, _, _ := CancelBookings(d.bookings, d.credits, future, false, now);
      d := d.(bookings := bs);
    }
    db.Commit(d);
    return Ok(disable);
  }

  /** `admin_cancel_booking`: a CONFIRMED booking cancelled and always refunded to its owner. */
  method AdminCancelBooking(db: Database, k: Id, now: int) returns (r: Result<bool>)
    modifies db
    ensures (db.Snapshot(), r) == Cancellation.AdminCancelBooking(old(db.Snapshot()), k, now)
  {
    if k !in db.bookings {
      return Err(BookingNotFound);
    }
    var b := db.bookings[k];
    if b.status != Confirmed {
      return Err(BookingNotConfirmed);
    }
    db.bookings := db.bookings[k := Cancel(b, now)];
    db.credits := db.credits + [NewCredit(b.user, 1)];
    return Ok(true);
  }

  /** `add_user_credits`: one ledger entry for an existing user. */
  method AddUserCredits(db: Database, u: Id, amount: int, expiresAt: Option<int>) returns (r: Result<int>)
    modifies db
    ensures (db.Snapshot(), r) == Accounts.AddUserCredits(old(db.Snapshot()), u, amount, expiresAt)
  {
    if u !in db.users {
      return Err(UserNotFound);
    }
    db.credits := db.credits + [Credit(u, amount, expiresAt)];
    return Ok(amount);
  }

  /** `create_user`: refuse a DNI already held, otherwise insert the LOCAL user; a unique clash rolls back. */
  method CreateUser(db: Database, fullName: string, dni: string, isTrial: bool) returns (r: Result<Id>)
    modifies db
    ensures (db.Snapshot(), r) == Accounts.CreateUser(old(db.Snapshot()), fullName, dni, isTrial)
  {
    if UserByDni(db.Snapshot(), dni).Some? {
      return Err(DniExists);
    }
    var u := Shadows.Shadow(dni, fullName, isTrial);
    if ClashesWith(db.users, u, None) {
      return Err(IntegrityError);
    }
    var id := db.nextId;
    db.users := db.users[id := u];
    db.nextId := db.nextId + 1;
    return Ok(id);
  }

  /** The balance `search_users` shows for one user: the balance loop floored at zero. */
  method SearchUserCredits(db: Database, u: Id, now: int) returns (credits: int)
    ensures credits == Views.ShownCredits(db.Snapshot(), u, now)
    ensures credits >= 0
  {
    var balance := AvailableCredits(db.credits, u, now);
    credits := if balance < 0 then 0 else balance;
  }

  /** `get_user_detail`'s credits: the sum of unexpired positive entries, floored at zero. */
  method UserDetailCredits(db: Database, u: Id, now: int) returns (r: Result<int>)
    ensures u !in db.users <==> r == Err(UserNotFound)
    ensures r.Ok? ==> r.value == PositiveBalance(db.credits, u, now) && r.value >= Views.ShownCredits(db.Snapshot(), u, now)
  {
    if u !in db.users {
      return Err(UserNotFound);
    }
    var available := PositiveCredits(db.credits, u, now);
    PositiveBoundsDisplayed(db.credits, u, now);
    return Ok(if available < 0 then 0 else available);
  }
}
