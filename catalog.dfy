/**
 * The class catalog: creating a single class or a 12-week series together
 * with the auto-booking of matching fixed schedules (and the holiday
 * refunds that replace it), editing a class, and cancelling a class or the
 * future part of its series.
 */
module Catalog {
  import opened Wrappers
  import opened Models
  import opened Calendar
  import opened Ledger
  import opened Store
  import opened Effects

  /** The body of the create request. */
  datatype ClassRequest = ClassRequest(
    name: string,
    instructor: string,
    start: int,
    maxSlots: int,
    durationMinutes: int,
    recurrence: bool)

  /** A request with the defaults for every optional field. */
  function DefaultRequest(instructor: string, start: int): ClassRequest
  {
    ClassRequest(DefaultClassName, instructor, start, DefaultMaxSlots, DefaultDurationMinutes, false)
  }

  /** A series has 12 weekly instances; a single class has one. */
  function SeriesLength(recurrence: bool): nat
  {
    if recurrence then 12 else 1
  }

  /** Instance `i` of the series: `i` weeks after the first, flagged recurring only when first. */
  function Instance(req: ClassRequest, group: Option<Id>, i: nat): GymClass
  {
    GymClass(req.name, req.instructor, req.start + i * SecondsPerWeek, req.maxSlots, req.durationMinutes,
             group, req.recurrence && i == 0, None)
  }

  /** The creation loop: `count` instances under consecutive fresh ids. */
  function InsertInstances(db: Db, req: ClassRequest, group: Option<Id>, count: nat): (r: Db)
    ensures r.users == db.users && r.bookings == db.bookings && r.schedules == db.schedules
    ensures r.credits == db.credits && r.instructors == db.instructors && r.settings == db.settings
    ensures r.nextId == db.nextId + count
  {
    if count == 0 then db
    else
      var d := InsertInstances(db, req, group, count - 1);
      d.(classes := d.classes[d.nextId := Instance(req, group, count - 1)], nextId := d.nextId + 1)
  }

  /** `count` consecutive ids from `base`. */
  function Consecutive(base: nat, count: nat): (r: seq<Id>)
    ensures |r| == count && forall i :: 0 <= i < count ==> r[i] == base + i
    ensures forall c :: c in r <==> base <= c < base + count
  {
    if count == 0 then [] else Consecutive(base, count - 1) + [base + count - 1]
  }

  /** An active rule of a non-deleted user for the weekday and exact clock time of `t`. */
  predicate AutoBookMatch(db: Db, s: Id, t: int)
  {
    && s in db.schedules
    && db.schedules[s].cancelledAt.None?
    && db.schedules[s].day == DayOf(t)
    && db.schedules[s].time == ClockTime(t)
    && db.schedules[s].user in db.users
    && !db.users[db.schedules[s].user].isDeleted
  }

  /** The fixed-schedule query of the auto-booking. */
  function MatchingSchedules(db: Db, t: int): (r: seq<Id>)
    ensures forall s: Id :: s in r <==> s < db.nextId && AutoBookMatch(db, s, t)
    ensures Ascending(r)
  {
    Select(db.nextId, (s: Id) => AutoBookMatch(db, s, t))
  }

  /** The owners of the listed fixed schedules, in order. */
  function ScheduleOwners(ss: map<Id, FixedSchedule>, q: seq<Id>): (r: seq<Id>)
    requires forall s :: s in q ==> s in ss
    ensures |r| == |q| && forall i :: 0 <= i < |q| ==> r[i] == ss[q[i]].user
  {
    if q == [] then [] else ScheduleOwners(ss, q[..|q| - 1]) + [ss[q[|q| - 1]].user]
  }

  /** One step of the working-day loop: a CONFIRMED booking for `u` unless a row links `u` to `c` already. */
  function BookOne(d: Db, u: Id, c: Id): (r: Db)
    ensures r.users == d.users && r.classes == d.classes && r.schedules == d.schedules
    ensures r.credits == d.credits && r.instructors == d.instructors && r.settings == d.settings
  {
    if RowFor(d, u, c).Some? then d else InsertBooking(d, NewBooking(u, c))
  }

  /** The working-day loop: a CONFIRMED booking for each listed rule's owner that has no row in class `c`. */
  function BookEach(db: Db, c: Id, q: seq<Id>): (r: Db)
    requires forall s :: s in q ==> s in db.schedules
    ensures r.users == db.users && r.classes == db.classes && r.schedules == db.schedules
    ensures r.credits == db.credits && r.instructors == db.instructors && r.settings == db.settings
  {
    if q == [] then db
    else
      var d := BookEach(db, c, q[..|q| - 1]);
      assert q[|q| - 1] in q;
      BookOne(d, d.schedules[q[|q| - 1]].user, c)
  }

  /**
   * The inner auto-booking loop over the matching rules of class `c`: on a holiday one +1 entry
   * per rule for its owner, otherwise the bookings of `BookEach`.
   */
  function AutoBookClass(db: Db, c: Id, q: seq<Id>, holiday: bool): (r: Db)
    requires forall s :: s in q ==> s in db.schedules
    ensures r.users == db.users && r.classes == db.classes && r.schedules == db.schedules
    ensures r.instructors == db.instructors && r.settings == db.settings
  {
    if holiday then db.(credits := db.credits + Refunds(ScheduleOwners(db.schedules, q)))
    else BookEach(db, c, q)
  }

  /** The outer auto-booking loop over the created classes. */
  function AutoBookAll(db: Db, cs: seq<Id>, holidays: set<int>): (r: Db)
    requires forall c :: c in cs ==> c in db.classes
    ensures r.users == db.users && r.classes == db.classes && r.schedules == db.schedules
    ensures r.instructors == db.instructors && r.settings == db.settings
  {
    if cs == [] then db
    else
      var d := AutoBookAll(db, cs[..|cs| - 1], holidays);
      assert cs[|cs| - 1] in cs;
      var t := d.classes[cs[|cs| - 1]].startTime;
      AutoBookClass(d, cs[|cs| - 1], MatchingSchedules(d, t), IsHoliday(t, holidays))
  }

  /** The recurrence group of a new series: the next id; a single class has none. */
  function SeriesGroup(db: Db, req: ClassRequest): Option<Id>
  {
    if req.recurrence then Some(db.nextId) else None
  }

  /** The tables before the instances are inserted: the instructor registered, the group id taken. */
  function Prepared(db: Db, req: ClassRequest): Db
  {
    db.(instructors := db.instructors + {req.instructor},
        nextId := if req.recurrence then db.nextId + 1 else db.nextId)
  }

  /** The tables once every instance of the request is inserted, before any auto-booking. */
  function Created(db: Db, req: ClassRequest): Db
  {
    InsertInstances(Prepared(db, req), req, SeriesGroup(db, req), SeriesLength(req.recurrence))
  }

  /** `create_gym_class`: the id of the first instance, or the rejection of a start not in the future. */
  function CreateGymClass(db: Db, req: ClassRequest, holidays: set<int>, now: int): (Db, Result<Id>)
  {
    if req.start <= now then (db, Err(ClassInPast))
    else
      var d2 := Prepared(db, req);
      var n := SeriesLength(req.recurrence);
      InstancesPresent(d2, req, SeriesGroup(db, req), n);
      assert forall c :: c in Consecutive(d2.nextId, n) ==> c in Created(db, req).classes;
      (AutoBookAll(Created(db, req), Consecutive(d2.nextId, n), holidays), Ok(d2.nextId))
  }

  /** The instances land under ids `base .. base + count - 1`, and nowhere else. */
  lemma {:induction false} InstancesPresent(db: Db, req: ClassRequest, group: Option<Id>, count: nat)
    ensures forall k: Id :: db.nextId <= k < db.nextId + count ==>
      k in InsertInstances(db, req, group, count).classes &&
      InsertInstances(db, req, group, count).classes[k] == Instance(req, group, k - db.nextId)
    ensures forall k :: k in InsertInstances(db, req, group, count).classes ==>
      k in db.classes || db.nextId <= k < db.nextId + count
  {
    if count > 0 {
      InstancesPresent(db, req, group, count - 1);
      var d := InsertInstances(db, req, group, count - 1);
      var r := InsertInstances(db, req, group, count);
      assert d.nextId == db.nextId + count - 1;
      assert r.classes == d.classes[db.nextId + count - 1 := Instance(req, group, count - 1)];
    }
  }

  /** Classes that existed before the creation loop are untouched by it. */
  lemma {:induction false} InstancesKeepOld(db: Db, req: ClassRequest, group: Option<Id>, count: nat)
    requires forall k :: k in db.classes ==> k < db.nextId
    ensures forall k :: k in db.classes ==>
      k in InsertInstances(db, req, group, count).classes && InsertInstances(db, req, group, count).classes[k] == db.classes[k]
  {
    if count > 0 {
      InstancesKeepOld(db, req, group, count - 1);
    }
  }

  /** The patch body of `update_gym_class`; absent fields stay as they are. */
  datatype ClassPatch = ClassPatch(
    name: Option<string>,
    instructor: Option<string>,
    maxSlots: Option<int>,
    durationMinutes: Option<int>)

  /** `update_gym_class`: an unknown class or an instructor that is not active rejects without change. */
  function UpdateGymClass(db: Db, c: Id, patch: ClassPatch): (Db, Result<GymClass>)
  {
    if c !in db.classes then (db, Err(ClassNotFound))
    else if patch.instructor.Some? && patch.instructor.value !in db.instructors then (db, Err(InstructorNotFound))
    else
      var g := db.classes[c];
      var g' := g.(name := if patch.name.Some? then patch.name.value else g.name,
                   maxSlots := if patch.maxSlots.Some? then patch.maxSlots.value else g.maxSlots,
                   durationMinutes := if patch.durationMinutes.Some? then patch.durationMinutes.value else g.durationMinutes,
                   instructor := if patch.instructor.Some? then patch.instructor.value else g.instructor);
      (db.(classes := db.classes[c := g']), Ok(g'))
  }

  /** Counts returned by `delete_gym_class`. */
  datatype CancelOutcome = CancelOutcome(classesCancelled: nat, creditsRefunded: nat)

  /** The series members still to come: same group, starting after `now`, not cancelled. */
  function SeriesTargets(db: Db, group: Id, now: int): (r: seq<Id>)
    ensures forall k :: k in r <==>
      (&& k < db.nextId && k in db.classes && db.classes[k].recurrenceGroup == Some(group)
       && db.classes[k].startTime > now && db.classes[k].cancelledAt.None?)
    ensures Ascending(r)
  {
    Select(db.nextId, k => k in db.classes && db.classes[k].recurrenceGroup == Some(group) &&
      db.classes[k].startTime > now && db.classes[k].cancelledAt.None?)
  }

  /** The classes `delete_gym_class` cancels. */
  function CancelTargets(db: Db, c: Id, cancelSeries: bool, now: int): seq<Id>
    requires c in db.classes
  {
    if cancelSeries && db.classes[c].recurrenceGroup.Some? then SeriesTargets(db, db.classes[c].recurrenceGroup.value, now)
    else [c]
  }

  /** One target: stamp the class, cancel its CONFIRMED bookings, refund each unless a series is cancelled. */
  function CancelClass(db: Db, c: Id, refund: bool, now: int): (r: Db)
    requires c in db.classes
    ensures r.users == db.users && r.schedules == db.schedules
    ensures r.instructors == db.instructors && r.settings == db.settings && r.nextId == db.nextId
    ensures r.classes.Keys == db.classes.Keys && r.bookings.Keys == db.bookings.Keys && db.credits <= r.credits
  {
    var d := db.(classes := db.classes[c := db.classes[c].(cancelledAt := Some(now))]);
    var q := ConfirmedOn(d, c);
    d.(bookings := CancelAll(d.bookings, q, now),
       credits := d.credits + if refund then Refunds(BookingOwners(d.bookings, q)) else [])
  }

  /** The loop over the targets. */
  function CancelClasses(db: Db, ts: seq<Id>, refund: bool, now: int): (r: Db)
    requires forall t :: t in ts ==> t in db.classes
    ensures r.users == db.users && r.schedules == db.schedules
    ensures r.instructors == db.instructors && r.settings == db.settings && r.nextId == db.nextId
    ensures r.classes.Keys == db.classes.Keys && r.bookings.Keys == db.bookings.Keys && db.credits <= r.credits
  {
    if ts == [] then db
    else
      var d := CancelClasses(db, ts[..|ts| - 1], refund, now);
      assert ts[|ts| - 1] in ts;
      CancelClass(d, ts[|ts| - 1], refund, now)
  }

  /** `delete_gym_class`. */
  function DeleteGymClass(db: Db, c: Id, cancelSeries: bool, now: int): (Db, Result<CancelOutcome>)
  {
    if c !in db.classes then (db, Err(ClassNotFound))
    else if db.classes[c].cancelledAt.Some? then (db, Err(ClassAlreadyCancelled))
    else
      var ts := CancelTargets(db, c, cancelSeries, now);
      var r := CancelClasses(db, ts, !cancelSeries, now);
      (r, Ok(CancelOutcome(|ts|, |r.credits| - |db.credits|)))
  }
}
