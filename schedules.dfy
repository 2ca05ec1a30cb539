/**
 * Fixed schedules (weekly standing reservations): `add_fixed_schedule`, which
 * resolves or creates the user, places the rule and backfills bookings into
 * the matching future classes, and `delete_fixed_schedule`, which stamps the
 * rule and releases the matching future bookings with a +1 refund each.
 */
module Schedules {
  import opened Wrappers
  import opened Models
  import opened Calendar
  import opened Ledger
  import opened Store
  import opened Effects
  import opened Shadows
  import opened Catalog
  import opened CatalogFacts

  /** What `add_fixed_schedule` reports: the rule and the number of bookings the backfill created. */
  datatype AddOutcome = AddOutcome(schedule: Id, booked: nat)

  /** What `delete_fixed_schedule` reports. */
  datatype ReleaseOutcome = ReleaseOutcome(bookingsCancelled: nat, creditsRefunded: nat)

  // ---------------------------------------------------------------------------
  // add_fixed_schedule

  /** The backfill's test: the class's weekday, hour and minute are the rule's; seconds are not compared. */
  predicate BackfillMatch(t: int, day: DayOfWeek, time: TimeOfDay)
  {
    Weekday(t) == DayToInt(day) && Hour(ClockTime(t)) == Hour(time) && Minute(ClockTime(t)) == Minute(time)
  }

  /** The classes starting after `now`, cancelled ones included. */
  function FutureClasses(db: Db, now: int): (r: seq<Id>)
    ensures forall k :: k in r <==> k < db.nextId && k in db.classes && db.classes[k].startTime > now
    ensures Ascending(r)
  {
    Select(db.nextId, k => k in db.classes && db.classes[k].startTime > now)
  }

  /** One backfill step: a matching class gets a CONFIRMED booking unless the user has a row in it. */
  function BackfillOne(d: Db, user: Id, c: Id, day: DayOfWeek, time: TimeOfDay): (r: Db)
    requires c in d.classes
    ensures r.users == d.users && r.classes == d.classes && r.schedules == d.schedules
    ensures r.credits == d.credits && r.instructors == d.instructors && r.settings == d.settings
  {
    if BackfillMatch(d.classes[c].startTime, day, time) then BookOne(d, user, c) else d
  }

  /** The backfill loop over the listed classes. */
  function Backfill(d: Db, user: Id, q: seq<Id>, day: DayOfWeek, time: TimeOfDay): (r: Db)
    requires forall c :: c in q ==> c in d.classes
    ensures r.users == d.users && r.classes == d.classes && r.schedules == d.schedules
    ensures r.credits == d.credits && r.instructors == d.instructors && r.settings == d.settings
  {
    if q == [] then d
    else
      var m := Backfill(d, user, q[..|q| - 1], day, time);
      assert q[|q| - 1] in q;
      BackfillOne(m, user, q[|q| - 1], day, time)
  }

  /** The rule for (user, day, time): a cancelled one is reactivated, an active one rejected, else a new one. */
  function PlaceRule(d: Db, who: Id, day: DayOfWeek, time: TimeOfDay): (r: (Db, Result<Id>))
    ensures r.0.users == d.users && r.0.classes == d.classes && r.0.bookings == d.bookings
    ensures r.0.credits == d.credits && r.0.nextId >= d.nextId
    ensures r.1.Err? ==> r.0 == d
  {
    match ScheduleFor(d, who, day, time)
    case Some(s) =>
      if d.schedules[s].cancelledAt.Some? then (d.(schedules := d.schedules[s := d.schedules[s].(cancelledAt := None)]), Ok(s))
      else (d, Err(ScheduleExists))
    case None =>
      (d.(schedules := d.schedules[d.nextId := FixedSchedule(day, time, who, None)], nextId := d.nextId + 1), Ok(d.nextId))
  }

  /** `add_fixed_schedule`: no capacity check and no debit; a shadow the resolution commits stays on rejection. */
  function AddFixedSchedule(db: Db, userId: Option<Id>, dni: Option<string>, fullName: Option<string>,
                            day: DayOfWeek, time: TimeOfDay, now: int): (Db, Result<AddOutcome>)
  {
    var (d, who) := ResolveForSchedule(db, userId, dni, fullName);
    if who.Err? then (d, Err(who.error))
    else PlaceAndBackfill(d, who.value, day, time, now)
  }

  /** The rule placed for the resolved user, then the backfill over the classes starting after `now`. */
  function PlaceAndBackfill(d: Db, who: Id, day: DayOfWeek, time: TimeOfDay, now: int): (r: (Db, Result<AddOutcome>))
    ensures r.0.credits == d.credits && r.0.classes == d.classes && r.0.users == d.users
    ensures r.1.Err? ==> r.0 == d
  {
    var (d1, s) := PlaceRule(d, who, day, time);
    if s.Err? then (d1, Err(s.error))
    else
      var r := Backfill(d1, who, FutureClasses(d1, now), day, time);
      (r, Ok(AddOutcome(s.value, Booked(d1, r))))
  }

  /** The number of rows inserted between two states: the ids handed out. */
  function Booked(a: Db, r: Db): nat
  {
    if r.nextId >= a.nextId then r.nextId - a.nextId else 0
  }

  /** What the backfill keeps: stored rows, fresh ids only, and each new id filled. */
  predicate BackfillKeeps(a: Db, r: Db)
  {
    && r.nextId >= a.nextId
    && (forall k :: k in r.bookings ==> k < r.nextId)
    && (forall k :: k in a.bookings ==> k in r.bookings && r.bookings[k] == a.bookings[k])
    && (forall k :: a.nextId <= k < r.nextId ==> k in r.bookings)
  }

  /** What the backfill adds: each new row a CONFIRMED booking of the user in a listed matching class. */
  predicate BackfillAdds(a: Db, r: Db, user: Id, q: seq<Id>, day: DayOfWeek, time: TimeOfDay)
  {
    forall k :: k in r.bookings && k !in a.bookings ==>
      && a.nextId <= k
      && r.bookings[k] == NewBooking(user, r.bookings[k].gymClass)
      && r.bookings[k].gymClass in q && r.bookings[k].gymClass in a.classes
      && BackfillMatch(a.classes[r.bookings[k].gymClass].startTime, day, time)
  }

  /** What the backfill reaches: every listed matching class has a row of the user. */
  predicate BackfillCovers(a: Db, r: Db, user: Id, q: seq<Id>, day: DayOfWeek, time: TimeOfDay)
  {
    forall c :: c in q && c in a.classes && BackfillMatch(a.classes[c].startTime, day, time) ==> HasRow(r.bookings, user, c)
  }

  lemma BackfillOneKeeps(a: Db, m: Db, user: Id, c: Id, day: DayOfWeek, time: TimeOfDay)
    requires m.classes == a.classes && c in a.classes
    requires BackfillKeeps(a, m)
    ensures BackfillKeeps(a, BackfillOne(m, user, c, day, time))
  {
    BookOneKeeps(m, user, c);
  }

  lemma BackfillOneAdds(a: Db, m: Db, user: Id, q: seq<Id>, c: Id, day: DayOfWeek, time: TimeOfDay)
    requires m.classes == a.classes && c in a.classes
    requires BackfillKeeps(a, m) && BackfillAdds(a, m, user, q, day, time)
    ensures BackfillAdds(a, BackfillOne(m, user, c, day, time), user, q + [c], day, time)
  {
    var r := BackfillOne(m, user, c, day, time);
    BookOneKeeps(m, user, c);
    forall k | k in r.bookings && k !in a.bookings
      ensures && a.nextId <= k
              && r.bookings[k] == NewBooking(user, r.bookings[k].gymClass)
              && r.bookings[k].gymClass in q + [c] && r.bookings[k].gymClass in a.classes
              && BackfillMatch(a.classes[r.bookings[k].gymClass].startTime, day, time)
    {
      if k in m.bookings {
        assert r.bookings[k] == m.bookings[k];
      }
    }
  }

  lemma BackfillOneCovers(a: Db, m: Db, user: Id, q: seq<Id>, c: Id, day: DayOfWeek, time: TimeOfDay)
    requires m.classes == a.classes && c in a.classes
    requires forall k :: k in m.bookings ==> k < m.nextId
    requires BackfillCovers(a, m, user, q, day, time)
    ensures BackfillCovers(a, BackfillOne(m, user, c, day, time), user, q + [c], day, time)
  {
    var r := BackfillOne(m, user, c, day, time);
    BookOneKeeps(m, user, c);
    forall c' | c' in q + [c] && c' in a.classes && BackfillMatch(a.classes[c'].startTime, day, time)
      ensures HasRow(r.bookings, user, c')
    {
      if c' != c {
        var k :| k in m.bookings && m.bookings[k].user == user && m.bookings[k].gymClass == c';
        assert r.bookings[k] == m.bookings[k];
      }
    }
  }

  /** The backfill keeps what it must and reaches every listed matching class. */
  lemma {:induction false} BackfillEffect(d: Db, user: Id, q: seq<Id>, day: DayOfWeek, time: TimeOfDay)
    requires forall c :: c in q ==> c in d.classes
    requires forall k :: k in d.bookings ==> k < d.nextId
    ensures BackfillKeeps(d, Backfill(d, user, q, day, time))
    ensures BackfillAdds(d, Backfill(d, user, q, day, time), user, q, day, time)
    ensures BackfillCovers(d, Backfill(d, user, q, day, time), user, q, day, time)
  {
    if q != [] {
      var q' := q[..|q| - 1];
      assert forall c :: c in q' ==> c in q;
      BackfillEffect(d, user, q', day, time);
      var m := Backfill(d, user, q', day, time);
      assert q == q' + [q[|q| - 1]];
      BackfillOneKeeps(d, m, user, q[|q| - 1], day, time);
      BackfillOneAdds(d, m, user, q', q[|q| - 1], day, time);
      BackfillOneCovers(d, m, user, q', q[|q| - 1], day, time);
    }
  }

  /** The outcome of `add_fixed_schedule`: its errors, and that the ledger and class table never change. */
  lemma AddFixedScheduleRejections(db: Db, userId: Option<Id>, dni: Option<string>, fullName: Option<string>,
                                   day: DayOfWeek, time: TimeOfDay, now: int)
    ensures var (r, out) := AddFixedSchedule(db, userId, dni, fullName, day, time, now);
      var (d, who) := ResolveForSchedule(db, userId, dni, fullName);
      && r.credits == db.credits && r.classes == db.classes && r.users == d.users
      && (who.Err? ==> r == db && out == Err(who.error))
      && (out == Err(ScheduleExists) <==>
            who.Ok? && ScheduleFor(d, who.value, day, time).Some? &&
            d.schedules[ScheduleFor(d, who.value, day, time).value].cancelledAt.None?)
      && (out.Err? && out != Err(ScheduleExists) ==> who.Err?)
      && (out.Err? ==> r == d)
  {
    var res := ResolveForSchedule(db, userId, dni, fullName);
    ResolveForScheduleShape(db, userId, dni, fullName);
    if res.1.Ok? {
      assert AddFixedSchedule(db, userId, dni, fullName, day, time, now)
          == PlaceAndBackfill(res.0, res.1.value, day, time, now);
    }
  }

  /** A placed rule is the active rule for (user, day, time); other rules and all bookings stay. */
  lemma PlaceRuleEffect(d: Db, who: Id, day: DayOfWeek, time: TimeOfDay)
    requires forall k :: k in d.schedules ==> k < d.nextId
    requires PlaceRule(d, who, day, time).1.Ok?
    ensures var (r, s) := PlaceRule(d, who, day, time);
      && s.value in r.schedules && r.schedules[s.value] == FixedSchedule(day, time, who, None)
      && r.schedules.Keys == d.schedules.Keys + {s.value}
      && (forall j :: j in d.schedules && j != s.value ==> r.schedules[j] == d.schedules[j])
      && (s.value !in d.schedules ==> s.value == d.nextId && r.nextId == d.nextId + 1)
      && (s.value in d.schedules ==> r.nextId == d.nextId && d.schedules[s.value].cancelledAt.Some?)
      && (forall k :: k in r.schedules ==> k < r.nextId)
  {
  }

  /** A successful `add_fixed_schedule` places and backfills on the resolved state, which has the same rows. */
  lemma AddFixedScheduleResolves(db: Db, userId: Option<Id>, dni: Option<string>, fullName: Option<string>,
                                 day: DayOfWeek, time: TimeOfDay, now: int)
    requires IdsIssued(db)
    requires AddFixedSchedule(db, userId, dni, fullName, day, time, now).1.Ok?
    ensures var (d, who) := ResolveForSchedule(db, userId, dni, fullName);
      && who.Ok? && who.value in d.users
      && AddFixedSchedule(db, userId, dni, fullName, day, time, now) == PlaceAndBackfill(d, who.value, day, time, now)
      && d.bookings == db.bookings && d.classes == db.classes && d.credits == db.credits && IdsIssued(d)
  {
    var res := ResolveForSchedule(db, userId, dni, fullName);
    ResolveForScheduleShape(db, userId, dni, fullName);
    if res.1.Ok? {
      assert AddFixedSchedule(db, userId, dni, fullName, day, time, now)
          == PlaceAndBackfill(res.0, res.1.value, day, time, now);
    }
  }

  /** A successful placement and backfill leaves the rule active for the user, and keeps the ledger and every stored row. */
  lemma PlaceAndBackfillRule(d: Db, who: Id, day: DayOfWeek, time: TimeOfDay, now: int)
    requires IdsIssued(d)
    requires PlaceAndBackfill(d, who, day, time, now).1.Ok?
    ensures var (r, out) := PlaceAndBackfill(d, who, day, time, now);
      && out.value.schedule in r.schedules && r.schedules[out.value.schedule] == FixedSchedule(day, time, who, None)
      && r.credits == d.credits
      && (forall k :: k in d.bookings ==> k in r.bookings && r.bookings[k] == d.bookings[k])
  {
    var (d1, s) := PlaceRule(d, who, day, time);
    BackfillEffect(d1, who, FutureClasses(d1, now), day, time);
    PlaceRuleEffect(d, who, day, time);
  }

  /**
   * The backfill of a successful placement: every class starting after `now` on the rule's weekday, hour and
   * minute has a row of the user (full or cancelled classes alike), every new row is a CONFIRMED booking of
   * the user in such a class, and `booked` counts the new rows.
   */
  lemma PlaceAndBackfillRows(d: Db, who: Id, day: DayOfWeek, time: TimeOfDay, now: int)
    requires IdsIssued(d)
    requires PlaceAndBackfill(d, who, day, time, now).1.Ok?
    ensures var (r, out) := PlaceAndBackfill(d, who, day, time, now);
      && (forall c :: c in d.classes && d.classes[c].startTime > now && BackfillMatch(d.classes[c].startTime, day, time)
            ==> HasRow(r.bookings, who, c))
      && (forall k :: k in r.bookings && k !in d.bookings ==>
            && r.bookings[k] == NewBooking(who, r.bookings[k].gymClass)
            && r.bookings[k].gymClass in d.classes
            && d.classes[r.bookings[k].gymClass].startTime > now
            && BackfillMatch(d.classes[r.bookings[k].gymClass].startTime, day, time))
      && (forall k :: r.nextId - out.value.booked <= k < r.nextId ==> k in r.bookings && k !in d.bookings)
  {
    var (d1, s) := PlaceRule(d, who, day, time);
    var q := FutureClasses(d1, now);
    var r := Backfill(d1, who, q, day, time);
    BackfillEffect(d1, who, q, day, time);
    BackfilledFrom(d, d1, r, who, day, time, now);
  }

  lemma BackfilledFrom(db: Db, d1: Db, r: Db, who: Id, day: DayOfWeek, time: TimeOfDay, now: int)
    requires IdsIssued(db) && d1.bookings == db.bookings && d1.classes == db.classes && d1.nextId >= db.nextId
    requires BackfillKeeps(d1, r) && BackfillAdds(d1, r, who, FutureClasses(d1, now), day, time)
    requires BackfillCovers(d1, r, who, FutureClasses(d1, now), day, time)
    ensures forall c :: c in db.classes && db.classes[c].startTime > now && BackfillMatch(db.classes[c].startTime, day, time) ==>
      HasRow(r.bookings, who, c)
    ensures forall k :: k in r.bookings && k !in db.bookings ==>
      && r.bookings[k] == NewBooking(who, r.bookings[k].gymClass)
      && r.bookings[k].gymClass in db.classes
      && db.classes[r.bookings[k].gymClass].startTime > now
      && BackfillMatch(db.classes[r.bookings[k].gymClass].startTime, day, time)
    ensures forall k :: r.nextId - Booked(d1, r) <= k < r.nextId ==> k in r.bookings && k !in db.bookings
  {
    var q := FutureClasses(d1, now);
    forall c | c in db.classes && db.classes[c].startTime > now && BackfillMatch(db.classes[c].startTime, day, time)
      ensures HasRow(r.bookings, who, c)
    {
      assert c < d1.nextId;
      assert c in q;
    }
  }

  /** Exact matching implies the backfill's coarser matching; a class 30 seconds off shows the converse fails. */
  lemma BackfillCoarserThanExact(t: int, day: DayOfWeek, time: TimeOfDay)
    ensures DayOf(t) == day && ClockTime(t) == time ==> BackfillMatch(t, day, time)
    ensures BackfillMatch(30 + 3600 * 9 + 86400 * 4, Monday, 3600 * 9)
    ensures ClockTime(30 + 3600 * 9 + 86400 * 4) != 3600 * 9
  {
    if DayOf(t) == day {
      DayMapsInverse(Weekday(t), day);
    }
  }

  // ---------------------------------------------------------------------------
  // delete_fixed_schedule

  /** The release's test: the exact weekday and time of day of the rule. */
  predicate ReleaseMatch(t: int, rule: FixedSchedule)
  {
    DayOf(t) == rule.day && ClockTime(t) == rule.time
  }

  /** The classes starting after `now` and not cancelled. */
  function ActiveFutureClasses(db: Db, now: int): (r: seq<Id>)
    ensures forall k :: k in r <==>
      k < db.nextId && k in db.classes && db.classes[k].startTime > now && db.classes[k].cancelledAt.None?
    ensures Ascending(r)
  {
    Select(db.nextId, k => k in db.classes && db.classes[k].startTime > now && db.classes[k].cancelledAt.None?)
  }

  predicate IsConfirmedRow(b: Booking, user: Id, c: Id)
  {
    b.user == user && b.gymClass == c && b.status == Confirmed
  }

  /** The CONFIRMED row of `user` in class `c`. */
  function ConfirmedRowFor(d: Db, user: Id, c: Id): (r: Option<Id>)
    ensures r.Some? ==> r.value in d.bookings && IsConfirmedRow(d.bookings[r.value], user, c)
    ensures r.None? ==> forall k :: k in d.bookings && k < d.nextId ==> !IsConfirmedRow(d.bookings[k], user, c)
  {
    var p := (k: Id) => k in d.bookings && IsConfirmedRow(d.bookings[k], user, c);
    assert forall k: Id :: p(k) == (k in d.bookings && IsConfirmedRow(d.bookings[k], user, c));
    First(d.nextId, p)
  }

  /** One release step: in a matching class the owner's CONFIRMED booking is cancelled and refunded. */
  function ReleaseOne(d: Db, rule: FixedSchedule, c: Id, now: int): (r: Db)
    requires c in d.classes
    ensures r.users == d.users && r.classes == d.classes && r.schedules == d.schedules
    ensures r.nextId == d.nextId && r.bookings.Keys == d.bookings.Keys && d.credits <= r.credits
  {
    if !ReleaseMatch(d.classes[c].startTime, rule) then d
    else
      match ConfirmedRowFor(d, rule.user, c)
      case None => d
      case Some(k) => d.(bookings := d.bookings[k := Cancel(d.bookings[k], now)],
                         credits := d.credits + [NewCredit(rule.user, 1)])
  }

  /** The release loop over the listed classes. */
  function ReleaseAll(d: Db, rule: FixedSchedule, q: seq<Id>, now: int): (r: Db)
    requires forall c :: c in q ==> c in d.classes
    ensures r.users == d.users && r.classes == d.classes && r.schedules == d.schedules
    ensures r.nextId == d.nextId && r.bookings.Keys == d.bookings.Keys && d.credits <= r.credits
  {
    if q == [] then d
    else
      var m := ReleaseAll(d, rule, q[..|q| - 1], now);
      assert q[|q| - 1] in q;
      ReleaseOne(m, rule, q[|q| - 1], now)
  }

  /** `delete_fixed_schedule`: both counts are the number of refunds appended. */
  function DeleteFixedSchedule(db: Db, s: Id, now: int): (Db, Result<ReleaseOutcome>)
  {
    if s !in db.schedules then (db, Err(ScheduleNotFound))
    else if db.schedules[s].cancelledAt.Some? then (db, Err(ScheduleAlreadyCancelled))
    else
      var rule := db.schedules[s];
      var d := db.(schedules := db.schedules[s := rule.(cancelledAt := Some(now))]);
      var r := ReleaseAll(d, rule, ActiveFutureClasses(d, now), now);
      var n := |r.credits| - |d.credits|;
      (r, Ok(ReleaseOutcome(n, n)))
  }

  /** A booking the release of `rule` over `q` cancels. */
  predicate Released(a: Db, k: Id, rule: FixedSchedule, q: seq<Id>)
    requires k in a.bookings
  {
    && a.bookings[k].status == Confirmed && a.bookings[k].user == rule.user
    && a.bookings[k].gymClass in q && a.bookings[k].gymClass in a.classes
    && ReleaseMatch(a.classes[a.bookings[k].gymClass].startTime, rule)
  }

  /** Exactly the released bookings are cancelled. */
  predicate RowsReleased(a: Db, bs: map<Id, Booking>, rule: FixedSchedule, q: seq<Id>, now: int)
  {
    && bs.Keys == a.bookings.Keys
    && forall k :: k in a.bookings ==> bs[k] == if Released(a, k, rule, q) then Cancel(a.bookings[k], now) else a.bookings[k]
  }

  /** The effect of releasing over `q`: exactly the released bookings are cancelled, one refund to the owner each. */
  predicate ReleasedOver(a: Db, r: Db, rule: FixedSchedule, q: seq<Id>, now: int)
  {
    && RowsReleased(a, r.bookings, rule, q, now)
    && a.credits <= r.credits
    && RefundsTo(r.credits[|a.credits|..], rule.user)
  }

  /** A step that finds the owner's CONFIRMED row in a matching class cancels exactly the newly released booking. */
  lemma RowsReleasedHit(a: Db, bs: map<Id, Booking>, rule: FixedSchedule, q: seq<Id>, c: Id, j: Id, now: int)
    requires BookingPairsUnique(a.bookings)
    requires c in a.classes && ReleaseMatch(a.classes[c].startTime, rule)
    requires RowsReleased(a, bs, rule, q, now)
    requires j in bs && IsConfirmedRow(bs[j], rule.user, c)
    ensures RowsReleased(a, bs[j := Cancel(bs[j], now)], rule, q + [c], now)
  {
    assert bs[j] == a.bookings[j];
  }

  /** A step that finds no CONFIRMED row, or a class that does not match, cancels nothing more. */
  lemma RowsReleasedMiss(a: Db, bs: map<Id, Booking>, rule: FixedSchedule, q: seq<Id>, c: Id, n: nat, now: int)
    requires forall k :: k in a.bookings ==> k < n
    requires c in a.classes && RowsReleased(a, bs, rule, q, now)
    requires ReleaseMatch(a.classes[c].startTime, rule) ==>
      forall k :: k in bs && k < n ==> !IsConfirmedRow(bs[k], rule.user, c)
    ensures RowsReleased(a, bs, rule, q + [c], now)
  {
    forall k | k in a.bookings ensures Released(a, k, rule, q + [c]) == Released(a, k, rule, q) {
      if a.bookings[k].gymClass == c && !Released(a, k, rule, q) {
        assert bs[k] == a.bookings[k];
      }
    }
  }

  lemma ReleaseOneStep(a: Db, m: Db, rule: FixedSchedule, q: seq<Id>, c: Id, now: int)
    requires BookingPairsUnique(a.bookings) && forall k :: k in a.bookings ==> k < a.nextId
    requires m.classes == a.classes && m.nextId == a.nextId && c in a.classes
    requires ReleasedOver(a, m, rule, q, now)
    ensures ReleasedOver(a, ReleaseOne(m, rule, c, now), rule, q + [c], now)
  {
    var row := ConfirmedRowFor(m, rule.user, c);
    if ReleaseMatch(a.classes[c].startTime, rule) && row.Some? {
      ReleaseOneHit(a, m, rule, q, c, row.value, now);
    } else {
      RowsReleasedMiss(a, m.bookings, rule, q, c, m.nextId, now);
    }
  }

  lemma ReleaseOneHit(a: Db, m: Db, rule: FixedSchedule, q: seq<Id>, c: Id, j: Id, now: int)
    requires BookingPairsUnique(a.bookings)
    requires m.classes == a.classes && c in a.classes && ReleaseMatch(a.classes[c].startTime, rule)
    requires ReleasedOver(a, m, rule, q, now)
    requires ConfirmedRowFor(m, rule.user, c) == Some(j)
    ensures ReleasedOver(a, ReleaseOne(m, rule, c, now), rule, q + [c], now)
  {
    ReleasedOverHit(a, m, ReleaseOne(m, rule, c, now), rule, q, c, j, now);
  }

  lemma ReleasedOverHit(a: Db, m: Db, r: Db, rule: FixedSchedule, q: seq<Id>, c: Id, j: Id, now: int)
    requires BookingPairsUnique(a.bookings)
    requires c in a.classes && ReleaseMatch(a.classes[c].startTime, rule)
    requires ReleasedOver(a, m, rule, q, now)
    requires j in m.bookings && IsConfirmedRow(m.bookings[j], rule.user, c)
    requires r.bookings == m.bookings[j := Cancel(m.bookings[j], now)]
    requires r.credits == m.credits + [NewCredit(rule.user, 1)]
    ensures ReleasedOver(a, r, rule, q + [c], now)
  {
    RowsReleasedHit(a, m.bookings, rule, q, c, j, now);
    RefundsToSnoc(a.credits, m.credits, rule.user);
  }

  /** Releasing over `q` cancels exactly the released bookings, and every entry it appends is +1 to the owner. */
  lemma {:induction false} ReleaseAllRows(d: Db, rule: FixedSchedule, q: seq<Id>, now: int)
    requires forall c :: c in q ==> c in d.classes
    requires BookingPairsUnique(d.bookings) && forall k :: k in d.bookings ==> k < d.nextId
    ensures ReleasedOver(d, ReleaseAll(d, rule, q, now), rule, q, now)
  {
    if q != [] {
      var q' := q[..|q| - 1];
      assert forall c :: c in q' ==> c in q;
      ReleaseAllRows(d, rule, q', now);
      assert q == q' + [q[|q| - 1]];
      ReleaseOneStep(d, ReleaseAll(d, rule, q', now), rule, q', q[|q| - 1], now);
    } else {
      assert d.credits[|d.credits|..] == [];
    }
  }

  /** The bookings the release of `rule` over `q` cancels. */
  function ReleasedSet(a: Db, rule: FixedSchedule, q: seq<Id>): set<Id>
  {
    set k | k in a.bookings && Released(a, k, rule, q)
  }

  /** A step that cancels the owner's CONFIRMED row `j` in a matching class releases exactly `j` more. */
  lemma ReleasedSetHit(a: Db, bs: map<Id, Booking>, rule: FixedSchedule, q: seq<Id>, c: Id, j: Id, now: int)
    requires BookingPairsUnique(a.bookings)
    requires c in a.classes && ReleaseMatch(a.classes[c].startTime, rule)
    requires RowsReleased(a, bs, rule, q, now)
    requires j in bs && IsConfirmedRow(bs[j], rule.user, c)
    ensures j !in ReleasedSet(a, rule, q)
    ensures ReleasedSet(a, rule, q + [c]) == ReleasedSet(a, rule, q) + {j}
  {
    assert bs[j] == a.bookings[j];
    forall k | k in a.bookings ensures Released(a, k, rule, q + [c]) <==> Released(a, k, rule, q) || k == j {
      if k != j && Released(a, k, rule, q + [c]) && !Released(a, k, rule, q) {
        assert false;  // a second row for (owner, c) breaks the one-row-per-pair rule
      }
    }
  }

  /** A step that finds no CONFIRMED row, or a class that does not match, releases nothing more. */
  lemma ReleasedSetMiss(a: Db, bs: map<Id, Booking>, rule: FixedSchedule, q: seq<Id>, c: Id, n: nat, now: int)
    requires forall k :: k in a.bookings ==> k < n
    requires c in a.classes && RowsReleased(a, bs, rule, q, now)
    requires ReleaseMatch(a.classes[c].startTime, rule) ==>
      forall k :: k in bs && k < n ==> !IsConfirmedRow(bs[k], rule.user, c)
    ensures ReleasedSet(a, rule, q + [c]) == ReleasedSet(a, rule, q)
  {
    forall k | k in a.bookings ensures Released(a, k, rule, q + [c]) <==> Released(a, k, rule, q) {
    }
  }

  /** A release step appends one entry exactly when it releases one more booking. */
  lemma ReleaseOneCount(a: Db, m: Db, rule: FixedSchedule, q: seq<Id>, c: Id, now: int)
    requires BookingPairsUnique(a.bookings) && forall k :: k in a.bookings ==> k < a.nextId
    requires m.classes == a.classes && m.nextId == a.nextId && c in a.classes
    requires RowsReleased(a, m.bookings, rule, q, now)
    requires |m.credits| == |a.credits| + |ReleasedSet(a, rule, q)|
    ensures |ReleaseOne(m, rule, c, now).credits| == |a.credits| + |ReleasedSet(a, rule, q + [c])|
  {
    var row := ConfirmedRowFor(m, rule.user, c);
    if ReleaseMatch(a.classes[c].startTime, rule) && row.Some? {
      ReleaseOneCountHit(a, m, rule, q, c, row.value, now);
    } else {
      ReleaseOneCountMiss(a, m, rule, q, c, now);
    }
  }

  lemma ReleaseOneCountHit(a: Db, m: Db, rule: FixedSchedule, q: seq<Id>, c: Id, j: Id, now: int)
    requires BookingPairsUnique(a.bookings)
    requires m.classes == a.classes && c in a.classes && ReleaseMatch(a.classes[c].startTime, rule)
    requires RowsReleased(a, m.bookings, rule, q, now)
    requires |m.credits| == |a.credits| + |ReleasedSet(a, rule, q)|
    requires ConfirmedRowFor(m, rule.user, c) == Some(j)
    ensures |ReleaseOne(m, rule, c, now).credits| == |a.credits| + |ReleasedSet(a, rule, q + [c])|
  {
    assert |ReleaseOne(m, rule, c, now).credits| == |m.credits| + 1;
    ReleasedSetHit(a, m.bookings, rule, q, c, j, now);
  }

  lemma ReleaseOneCountMiss(a: Db, m: Db, rule: FixedSchedule, q: seq<Id>, c: Id, now: int)
    requires forall k :: k in a.bookings ==> k < a.nextId
    requires m.classes == a.classes && m.nextId == a.nextId && c in a.classes
    requires RowsReleased(a, m.bookings, rule, q, now)
    requires |m.credits| == |a.credits| + |ReleasedSet(a, rule, q)|
    requires !ReleaseMatch(a.classes[c].startTime, rule) || ConfirmedRowFor(m, rule.user, c).None?
    ensures |ReleaseOne(m, rule, c, now).credits| == |a.credits| + |ReleasedSet(a, rule, q + [c])|
  {
    assert ReleaseOne(m, rule, c, now).credits == m.credits;
    ReleasedSetMiss(a, m.bookings, rule, q, c, m.nextId, now);
  }

  /** Releasing over `q` appends as many entries as it cancels bookings. */
  lemma {:induction false} ReleaseAllCount(d: Db, rule: FixedSchedule, q: seq<Id>, now: int)
    requires forall c :: c in q ==> c in d.classes
    requires BookingPairsUnique(d.bookings) && forall k :: k in d.bookings ==> k < d.nextId
    ensures |ReleaseAll(d, rule, q, now).credits| == |d.credits| + |ReleasedSet(d, rule, q)|
  {
    if q != [] {
      var q' := q[..|q| - 1];
      assert forall c :: c in q' ==> c in q;
      ReleaseAllCount(d, rule, q', now);
      ReleaseAllRows(d, rule, q', now);
      assert q == q' + [q[|q| - 1]];
      ReleaseOneCount(d, ReleaseAll(d, rule, q', now), rule, q', q[|q| - 1], now);
    } else {
      assert ReleasedSet(d, rule, q) == {};
    }
  }

  /**
   * Releasing over `q` cancels exactly the released bookings and appends one +1 entry to the rule's
   * owner per cancelled booking.
   */
  lemma ReleaseAllEffect(d: Db, rule: FixedSchedule, q: seq<Id>, now: int)
    requires forall c :: c in q ==> c in d.classes
    requires BookingPairsUnique(d.bookings) && forall k :: k in d.bookings ==> k < d.nextId
    ensures ReleasedOver(d, ReleaseAll(d, rule, q, now), rule, q, now)
    ensures |ReleaseAll(d, rule, q, now).credits| == |d.credits| + |ReleasedSet(d, rule, q)|
  {
    ReleaseAllRows(d, rule, q, now);
    ReleaseAllCount(d, rule, q, now);
  }

  /** The rejections of `delete_fixed_schedule`, which change nothing. */
  lemma DeleteFixedScheduleRejections(db: Db, s: Id, now: int)
    ensures var (r, out) := DeleteFixedSchedule(db, s, now);
      && (out == Err(ScheduleNotFound) <==> s !in db.schedules)
      && (out == Err(ScheduleAlreadyCancelled) <==> s in db.schedules && db.schedules[s].cancelledAt.Some?)
      && (out.Err? ==> r == db)
      && (out.Ok? <==> s in db.schedules && db.schedules[s].cancelledAt.None?)
  {
  }

  /** A booking `delete_fixed_schedule` cancels: the owner's CONFIRMED row in a future active class at the rule's slot. */
  predicate ReleaseTarget(db: Db, k: Id, rule: FixedSchedule, now: int)
    requires k in db.bookings
  {
    && db.bookings[k].status == Confirmed && db.bookings[k].user == rule.user
    && db.bookings[k].gymClass in db.classes
    && db.classes[db.bookings[k].gymClass].startTime > now
    && db.classes[db.bookings[k].gymClass].cancelledAt.None?
    && ReleaseMatch(db.classes[db.bookings[k].gymClass].startTime, rule)
  }

  /** The bookings `delete_fixed_schedule` cancels. */
  function ReleaseTargets(db: Db, rule: FixedSchedule, now: int): set<Id>
  {
    set k | k in db.bookings && ReleaseTarget(db, k, rule, now)
  }

  /** Over the active future classes, the released bookings are the targets. */
  lemma TargetsReleased(db: Db, d: Db, rule: FixedSchedule, now: int)
    requires IdsIssued(db) && d.classes == db.classes && d.bookings == db.bookings && d.nextId == db.nextId
    ensures forall k :: k in db.bookings ==>
      (Released(d, k, rule, ActiveFutureClasses(d, now)) <==> ReleaseTarget(db, k, rule, now))
  {
    var q := ActiveFutureClasses(d, now);
    forall k | k in db.bookings ensures Released(d, k, rule, q) <==> ReleaseTarget(db, k, rule, now) {
      var c := db.bookings[k].gymClass;
      if c in db.classes {
        assert c < db.nextId;
      }
    }
  }

  /**
   * A successful `delete_fixed_schedule` stamps the rule, cancels exactly the owner's CONFIRMED bookings in
   * the classes starting after `now`, not cancelled, on the rule's exact weekday and time, and appends one +1
   * refund to the owner per cancelled booking; both reported counts are the number of refunds.
   */
  lemma DeleteFixedScheduleEffect(db: Db, s: Id, now: int)
    requires IdsIssued(db) && BookingPairsUnique(db.bookings)
    requires s in db.schedules && db.schedules[s].cancelledAt.None?
    ensures var (r, out) := DeleteFixedSchedule(db, s, now);
      var rule := db.schedules[s];
      && r.schedules == db.schedules[s := rule.(cancelledAt := Some(now))]
      && r.classes == db.classes && r.users == db.users && r.bookings.Keys == db.bookings.Keys
      && (forall k :: k in db.bookings ==>
            r.bookings[k] == if ReleaseTarget(db, k, rule, now) then Cancel(db.bookings[k], now) else db.bookings[k])
      && db.credits <= r.credits && RefundsTo(r.credits[|db.credits|..], rule.user)
      && |r.credits| == |db.credits| + |ReleaseTargets(db, rule, now)|
      && out == Ok(ReleaseOutcome(|ReleaseTargets(db, rule, now)|, |ReleaseTargets(db, rule, now)|))
  {
    var rule := db.schedules[s];
    var d := db.(schedules := db.schedules[s := rule.(cancelledAt := Some(now))]);
    var r := ReleaseAll(d, rule, ActiveFutureClasses(d, now), now);
    ReleaseAllEffect(d, rule, ActiveFutureClasses(d, now), now);
    ReleasedTargets(db, d, r, rule, now);
  }

  lemma ReleasedTargets(db: Db, d: Db, r: Db, rule: FixedSchedule, now: int)
    requires IdsIssued(db) && d.classes == db.classes && d.bookings == db.bookings && d.nextId == db.nextId
    requires d.credits == db.credits
    requires ReleasedOver(d, r, rule, ActiveFutureClasses(d, now), now)
    ensures r.bookings.Keys == db.bookings.Keys
    ensures forall k :: k in db.bookings ==>
      r.bookings[k] == if ReleaseTarget(db, k, rule, now) then Cancel(db.bookings[k], now) else db.bookings[k]
    ensures db.credits <= r.credits && RefundsTo(r.credits[|db.credits|..], rule.user)
    ensures ReleasedSet(d, rule, ActiveFutureClasses(d, now)) == ReleaseTargets(db, rule, now)
  {
    TargetsReleased(db, d, rule, now);
  }

  /** The owner's balance rises by the reported refund count, which is the number of cancelled bookings. */
  lemma DeleteFixedScheduleBalance(db: Db, s: Id, now: int)
    requires IdsIssued(db) && BookingPairsUnique(db.bookings)
    requires s in db.schedules && db.schedules[s].cancelledAt.None?
    ensures var (r, out) := DeleteFixedSchedule(db, s, now);
      && out.Ok? && out.value.creditsRefunded == |ReleaseTargets(db, db.schedules[s], now)|
      && Balance(r.credits, db.schedules[s].user, now) == Balance(db.credits, db.schedules[s].user, now) + out.value.creditsRefunded
  {
    DeleteFixedScheduleEffect(db, s, now);
    var r := DeleteFixedSchedule(db, s, now).0;
    var u := db.schedules[s].user;
    assert r.credits == db.credits + r.credits[|db.credits|..];
    BalanceAppend(db.credits, r.credits[|db.credits|..], u, now);
    RefundsToBalance(r.credits[|db.credits|..], u, now);
  }

  // ---------------------------------------------------------------------------
  // The integrity rules

  /** Changing only a rule's cancellation stamp keeps every integrity rule. */
  lemma RestampRuleKeepsValid(d: Db, s: Id, stamp: Option<int>)
    requires Valid(d) && s in d.schedules
    ensures Valid(d.(schedules := d.schedules[s := d.schedules[s].(cancelledAt := stamp)]))
  {
    var ss := d.schedules[s := d.schedules[s].(cancelledAt := stamp)];
    var r := d.(schedules := ss);
    assert ScheduleSlotsUnique(ss) by {
      forall i, j | i in ss && j in ss && i != j
        ensures ss[i].user != ss[j].user || ss[i].day != ss[j].day || ss[i].time != ss[j].time
      {
        assert i in d.schedules && j in d.schedules;
      }
    }
    assert ss.Keys == d.schedules.Keys;
    assert IdsIssued(r);
    assert RefsExist(r);
  }

  /** A new rule under the counter, for an existing user whose slot is free, keeps every integrity rule. */
  lemma NewRuleKeepsValid(d: Db, who: Id, day: DayOfWeek, time: TimeOfDay)
    requires Valid(d) && who in d.users && ScheduleFor(d, who, day, time).None?
    ensures Valid(d.(schedules := d.schedules[d.nextId := FixedSchedule(day, time, who, None)], nextId := d.nextId + 1))
  {
    var ss := d.schedules[d.nextId := FixedSchedule(day, time, who, None)];
    assert ScheduleSlotsUnique(ss) by {
      forall i, j | i in ss && j in ss && i != j
        ensures ss[i].user != ss[j].user || ss[i].day != ss[j].day || ss[i].time != ss[j].time
      {
        if i != d.nextId && j != d.nextId {
          assert ss[i] == d.schedules[i] && ss[j] == d.schedules[j];
        }
      }
    }
    var r := d.(schedules := ss, nextId := d.nextId + 1);
    assert IdsIssued(r);
    assert RefsExist(r);
  }

  /** Placing a rule for an existing user keeps every integrity rule, one rule per (user, day, time) included. */
  lemma PlaceRuleKeepsValid(d: Db, who: Id, day: DayOfWeek, time: TimeOfDay)
    requires Valid(d) && who in d.users
    ensures Valid(PlaceRule(d, who, day, time).0)
  {
    match ScheduleFor(d, who, day, time)
    case Some(s) => RestampRuleKeepsValid(d, s, None);
    case None => NewRuleKeepsValid(d, who, day, time);
  }

  /** The backfill keeps every integrity rule. */
  lemma {:induction false} BackfillKeepsValid(d: Db, user: Id, q: seq<Id>, day: DayOfWeek, time: TimeOfDay)
    requires Valid(d) && user in d.users
    requires forall c :: c in q ==> c in d.classes
    ensures Valid(Backfill(d, user, q, day, time))
  {
    if q != [] {
      var p := q[..|q| - 1];
      assert forall c :: c in p ==> c in q;
      BackfillKeepsValid(d, user, p, day, time);
      var m := Backfill(d, user, p, day, time);
      var c := q[|q| - 1];
      assert c in q;
      if BackfillMatch(m.classes[c].startTime, day, time) {
        BookOneKeepsValid(m, user, c);
      }
    }
  }

  /** Placing the rule and backfilling keep every integrity rule. */
  lemma PlaceAndBackfillKeepsValid(d: Db, who: Id, day: DayOfWeek, time: TimeOfDay, now: int)
    requires Valid(d) && who in d.users
    ensures Valid(PlaceAndBackfill(d, who, day, time, now).0)
  {
    PlaceRuleKeepsValid(d, who, day, time);
    var (d1, s) := PlaceRule(d, who, day, time);
    if s.Ok? {
      BackfillKeepsValid(d1, who, FutureClasses(d1, now), day, time);
    }
  }

  /** `add_fixed_schedule` keeps every integrity rule. */
  lemma AddFixedScheduleKeepsValid(db: Db, userId: Option<Id>, dni: Option<string>, fullName: Option<string>,
                                   day: DayOfWeek, time: TimeOfDay, now: int)
    requires Valid(db)
    ensures Valid(AddFixedSchedule(db, userId, dni, fullName, day, time, now).0)
  {
    var res := ResolveForSchedule(db, userId, dni, fullName);
    ResolveForScheduleKeepsValid(db, userId, dni, fullName);
    if res.1.Ok? {
      ResolveForScheduleShape(db, userId, dni, fullName);
      PlaceAndBackfillKeepsValid(res.0, res.1.value, day, time, now);
      assert AddFixedSchedule(db, userId, dni, fullName, day, time, now)
          == PlaceAndBackfill(res.0, res.1.value, day, time, now);
    }
  }

  /** Relabelling bookings in place and appending +1 refunds to an existing user keep every integrity rule. */
  lemma ReleaseStepKeepsValid(d: Db, r: Db, owner: Id)
    requires Valid(d) && owner in d.users
    requires r.users == d.users && r.classes == d.classes && r.schedules == d.schedules && r.nextId == d.nextId
    requires r.bookings.Keys == d.bookings.Keys
    requires forall k :: k in d.bookings ==>
      r.bookings[k].user == d.bookings[k].user && r.bookings[k].gymClass == d.bookings[k].gymClass
    requires forall k :: k in d.bookings ==> StatusStamped(r.bookings[k])
    requires d.credits <= r.credits && RefundsTo(r.credits[|d.credits|..], owner)
    ensures Valid(r)
  {
    RelabelKeepsValid(d, r.bookings);
    var extra := r.credits[|d.credits|..];
    assert r.credits == d.credits + extra;
    forall c | c in extra ensures c.user in d.users {
      var i :| 0 <= i < |extra| && extra[i] == c;
    }
    AppendCreditsKeepValid(d.(bookings := r.bookings), extra);
  }

  /** `delete_fixed_schedule` keeps every integrity rule: it stamps, cancels in place and refunds an existing user. */
  lemma DeleteFixedScheduleKeepsValid(db: Db, s: Id, now: int)
    requires Valid(db)
    ensures Valid(DeleteFixedSchedule(db, s, now).0)
  {
    if s in db.schedules && db.schedules[s].cancelledAt.None? {
      var rule := db.schedules[s];
      RestampRuleKeepsValid(db, s, Some(now));
      DeleteFixedScheduleRelabels(db, s, now);
      assert rule.user in db.users;
      ReleaseStepKeepsValid(db.(schedules := db.schedules[s := rule.(cancelledAt := Some(now))]),
                            DeleteFixedSchedule(db, s, now).0, rule.user);
    }
  }

  /** The release keeps each booking's user and class, leaves every status stamped, and only appends refunds. */
  lemma DeleteFixedScheduleRelabels(db: Db, s: Id, now: int)
    requires IdsIssued(db) && BookingPairsUnique(db.bookings)
    requires forall k :: k in db.bookings ==> StatusStamped(db.bookings[k])
    requires s in db.schedules && db.schedules[s].cancelledAt.None?
    ensures var r := DeleteFixedSchedule(db, s, now).0;
      && r.users == db.users && r.classes == db.classes && r.nextId == db.nextId
      && r.schedules == db.schedules[s := db.schedules[s].(cancelledAt := Some(now))]
      && r.bookings.Keys == db.bookings.Keys
      && (forall k :: k in db.bookings ==>
            r.bookings[k].user == db.bookings[k].user && r.bookings[k].gymClass == db.bookings[k].gymClass)
      && (forall k :: k in db.bookings ==> StatusStamped(r.bookings[k]))
      && db.credits <= r.credits && RefundsTo(r.credits[|db.credits|..], db.schedules[s].user)
  {
    DeleteFixedScheduleEffect(db, s, now);
  }
}
