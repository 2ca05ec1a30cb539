/**
 * What `create_gym_class`, `update_gym_class` and `delete_gym_class` promise,
 * proved about their specification functions: the shape of a series, the
 * auto-booking (refunds on holidays, bookings otherwise, never a debit),
 * the scope of a cancellation and its refunds, and the integrity rules kept.
 */
module CatalogFacts {
  import opened Wrappers
  import opened Models
  import opened Calendar
  import opened Ledger
  import opened Store
  import opened Effects
  import opened Catalog

  // ---------------------------------------------------------------------------
  // The series

  /** Instance `i` of an accepted request sits under the `i`-th id after the first, exactly as requested. */
  lemma CreateSeriesShape(db: Db, req: ClassRequest, holidays: set<int>, now: int, i: nat)
    requires req.start > now && i < SeriesLength(req.recurrence)
    ensures CreateGymClass(db, req, holidays, now).1 == Ok(Prepared(db, req).nextId)
    ensures Prepared(db, req).nextId + i in CreateGymClass(db, req, holidays, now).0.classes
    ensures CreateGymClass(db, req, holidays, now).0.classes[Prepared(db, req).nextId + i] == Instance(req, SeriesGroup(db, req), i)
  {
    var d2 := Prepared(db, req);
    InstancesPresent(d2, req, SeriesGroup(db, req), SeriesLength(req.recurrence));
  }

  /** The fields of instance `i`: one week per step, the shared group, the recurrence flag on the first only. */
  lemma InstanceFields(req: ClassRequest, group: Option<Id>, i: nat)
    ensures Instance(req, group, i).startTime == req.start + i * SecondsPerWeek
    ensures Weekday(Instance(req, group, i).startTime) == Weekday(req.start)
    ensures ClockTime(Instance(req, group, i).startTime) == ClockTime(req.start)
    ensures Instance(req, group, i).recurrenceGroup == group
    ensures Instance(req, group, i).recurrence <==> req.recurrence && i == 0
    ensures Instance(req, group, i).cancelledAt.None?
    ensures Instance(req, group, i).maxSlots == req.maxSlots && Instance(req, group, i).name == req.name
  {
    WeeksLater(req.start, i);
  }

  /** A series gets a group id no stored class or row uses; a single class gets none. */
  lemma SeriesGroupFresh(db: Db, req: ClassRequest)
    requires IdsIssued(db)
    ensures req.recurrence <==> SeriesGroup(db, req).Some?
    ensures req.recurrence ==>
      && SeriesGroup(db, req).value !in db.classes
      && forall k :: k in db.classes ==> db.classes[k].recurrenceGroup != SeriesGroup(db, req)
  {
  }

  /** The classes after an accepted creation are those inserted; auto-booking adds none. */
  lemma CreatedClasses(db: Db, req: ClassRequest, holidays: set<int>, now: int)
    requires req.start > now
    ensures CreateGymClass(db, req, holidays, now).0.classes == Created(db, req).classes
  {
  }

  /** Creation adds exactly the instances: the old classes stay as they were, and nothing else appears. */
  lemma CreateClassesExactly(db: Db, req: ClassRequest, holidays: set<int>, now: int)
    requires IdsIssued(db) && req.start > now
    ensures forall k :: k in CreateGymClass(db, req, holidays, now).0.classes <==>
      k in db.classes || Prepared(db, req).nextId <= k < Prepared(db, req).nextId + SeriesLength(req.recurrence)
    ensures forall k :: k in db.classes ==> CreateGymClass(db, req, holidays, now).0.classes[k] == db.classes[k]
  {
    var d2 := Prepared(db, req);
    var n := SeriesLength(req.recurrence);
    InstancesPresent(d2, req, SeriesGroup(db, req), n);
    InstancesKeepOld(d2, req, SeriesGroup(db, req), n);
    CreatedClasses(db, req, holidays, now);
  }

  /** A start that is not in the future is rejected and nothing is created. */
  lemma CreateRejectsPast(db: Db, req: ClassRequest, holidays: set<int>, now: int)
    ensures CreateGymClass(db, req, holidays, now).1 == Err(ClassInPast) <==> req.start <= now
    ensures req.start <= now ==> CreateGymClass(db, req, holidays, now).0 == db
  {
  }

  // ---------------------------------------------------------------------------
  // Auto-booking of one new class

  /** Some row, of any status, links `user` to class `c`. */
  predicate HasRow(bs: map<Id, Booking>, user: Id, c: Id)
  {
    exists k :: k in bs && bs[k].user == user && bs[k].gymClass == c
  }

  /** Some listed rule belongs to `u`. */
  predicate RuleOwner(ss: map<Id, FixedSchedule>, q: seq<Id>, u: Id)
  {
    exists s :: s in q && s in ss && ss[s].user == u
  }

  /** One step keeps every row, and adds at most the fresh CONFIRMED booking of `u` under the next id. */
  lemma BookOneKeeps(d: Db, u: Id, c: Id)
    requires forall k :: k in d.bookings ==> k < d.nextId
    ensures BookOne(d, u, c).nextId >= d.nextId
    ensures forall k :: k in BookOne(d, u, c).bookings ==> k < BookOne(d, u, c).nextId
    ensures forall k :: k in d.bookings ==>
      k in BookOne(d, u, c).bookings && BookOne(d, u, c).bookings[k] == d.bookings[k]
    ensures forall k :: k in BookOne(d, u, c).bookings && k !in d.bookings ==>
      k == d.nextId && BookOne(d, u, c).bookings[k] == NewBooking(u, c)
    ensures HasRow(BookOne(d, u, c).bookings, u, c)
  {
    var row := RowFor(d, u, c);
    if row.None? {
      assert d.nextId in BookOne(d, u, c).bookings;
    }
  }

  /** On a working day stored rows stay, ids stay below the counter, and no ledger entry is appended. */
  lemma {:induction false} AutoBookWorkdayKeeps(db: Db, c: Id, q: seq<Id>)
    requires forall s :: s in q ==> s in db.schedules
    requires forall k :: k in db.bookings ==> k < db.nextId
    ensures BookEach(db, c, q).credits == db.credits
    ensures BookEach(db, c, q).nextId >= db.nextId
    ensures forall k :: k in BookEach(db, c, q).bookings ==> k < BookEach(db, c, q).nextId
    ensures forall k :: k in db.bookings ==>
      k in BookEach(db, c, q).bookings && BookEach(db, c, q).bookings[k] == db.bookings[k]
  {
    if q != [] {
      var p := q[..|q| - 1];
      assert forall s :: s in p ==> s in q;
      AutoBookWorkdayKeeps(db, c, p);
      var d := BookEach(db, c, p);
      BookOneKeeps(d, d.schedules[q[|q| - 1]].user, c);
    }
  }

  /** On a working day every row that appears is a fresh CONFIRMED booking of the owner of a listed rule. */
  lemma {:induction false} AutoBookWorkdayNew(db: Db, c: Id, q: seq<Id>)
    requires forall s :: s in q ==> s in db.schedules
    requires forall k :: k in db.bookings ==> k < db.nextId
    ensures forall k :: k in BookEach(db, c, q).bookings && k !in db.bookings ==>
      && BookEach(db, c, q).bookings[k] == NewBooking(BookEach(db, c, q).bookings[k].user, c)
      && RuleOwner(db.schedules, q, BookEach(db, c, q).bookings[k].user)
  {
    if q != [] {
      var p := q[..|q| - 1];
      var last := q[|q| - 1];
      assert forall s :: s in p ==> s in q;
      AutoBookWorkdayNew(db, c, p);
      AutoBookWorkdayKeeps(db, c, p);
      var d := BookEach(db, c, p);
      var u := d.schedules[last].user;
      BookOneKeeps(d, u, c);
      var r := BookEach(db, c, q);
      assert r == BookOne(d, u, c);
      forall k | k in r.bookings && k !in db.bookings
        ensures r.bookings[k] == NewBooking(r.bookings[k].user, c) && RuleOwner(db.schedules, q, r.bookings[k].user)
      {
        if k in d.bookings {
          var s :| s in p && s in db.schedules && db.schedules[s].user == d.bookings[k].user;
          assert s in q;
        } else {
          assert last in q;
        }
      }
    }
  }

  /** On a working day every listed rule ends with a row for its owner in the class. */
  lemma {:induction false} AutoBookWorkdayCovers(db: Db, c: Id, q: seq<Id>)
    requires forall s :: s in q ==> s in db.schedules
    requires forall k :: k in db.bookings ==> k < db.nextId
    ensures forall s :: s in q ==> HasRow(BookEach(db, c, q).bookings, db.schedules[s].user, c)
  {
    if q != [] {
      var p := q[..|q| - 1];
      var last := q[|q| - 1];
      assert forall s :: s in p ==> s in q;
      AutoBookWorkdayCovers(db, c, p);
      AutoBookWorkdayKeeps(db, c, p);
      var d := BookEach(db, c, p);
      var u := d.schedules[last].user;
      BookOneKeeps(d, u, c);
      var r := BookEach(db, c, q);
      assert r == BookOne(d, u, c);
      forall s | s in q ensures HasRow(r.bookings, db.schedules[s].user, c) {
        if s != last {
          assert s in p by {
            var i :| 0 <= i < |q| && q[i] == s;
            assert i < |q| - 1 && p[i] == s;
          }
          var k :| k in d.bookings && d.bookings[k].user == db.schedules[s].user && d.bookings[k].gymClass == c;
          assert k in r.bookings && r.bookings[k] == d.bookings[k];
        }
      }
    }
  }

  // ---------------------------------------------------------------------------
  // One new class

  /**
   * `r` extends `d` the way the auto-booking may: every stored row stays as it was, ids stay
   * below the counter, and the ledger only gains +1 entries without expiry.
   */
  predicate Extends(d: Db, r: Db)
  {
    && d.credits <= r.credits
    && OnlyRefundEntries(r.credits[|d.credits|..])
    && r.nextId >= d.nextId
    && (forall k :: k in r.bookings ==> k < r.nextId)
    && (forall k :: k in d.bookings ==> k in r.bookings && r.bookings[k] == d.bookings[k])
  }

  /** Two extensions in a row are one. */
  lemma ExtendsTrans(a: Db, b: Db, c: Db)
    requires Extends(a, b) && Extends(b, c)
    ensures Extends(a, c)
  {
    var tail := c.credits[|a.credits|..];
    assert tail == b.credits[|a.credits|..] + c.credits[|b.credits|..];
    forall i | 0 <= i < |tail| ensures tail[i].amount == 1 && tail[i].expiresAt.None? {
      if i >= |b.credits| - |a.credits| {
        assert tail[i] == c.credits[|b.credits|..][i - (|b.credits| - |a.credits|)];
      } else {
        assert tail[i] == b.credits[|a.credits|..][i];
      }
    }
  }

  /** One class keeps every stored row and only appends +1 entries; a holiday adds no row. */
  lemma AutoBookClassKeeps(d: Db, c: Id, q: seq<Id>, holiday: bool)
    requires forall s :: s in q ==> s in d.schedules
    requires forall k :: k in d.bookings ==> k < d.nextId
    ensures Extends(d, AutoBookClass(d, c, q, holiday))
    ensures holiday ==> AutoBookClass(d, c, q, holiday).bookings == d.bookings
  {
    var r := AutoBookClass(d, c, q, holiday);
    if holiday {
      assert r.credits[|d.credits|..] == Refunds(ScheduleOwners(d.schedules, q));
    } else {
      AutoBookWorkdayKeeps(d, c, q);
      assert r.credits[|d.credits|..] == [];
    }
  }

  /** A row one class adds is a fresh CONFIRMED booking on it, on a working day, of a listed rule's owner. */
  lemma AutoBookClassNew(d: Db, c: Id, q: seq<Id>, holiday: bool)
    requires forall s :: s in q ==> s in d.schedules
    requires forall k :: k in d.bookings ==> k < d.nextId
    ensures forall k :: k in AutoBookClass(d, c, q, holiday).bookings && k !in d.bookings ==>
      && !holiday
      && AutoBookClass(d, c, q, holiday).bookings[k] == NewBooking(AutoBookClass(d, c, q, holiday).bookings[k].user, c)
      && RuleOwner(d.schedules, q, AutoBookClass(d, c, q, holiday).bookings[k].user)
  {
    if !holiday {
      AutoBookWorkdayNew(d, c, q);
    }
  }

  // ---------------------------------------------------------------------------
  // All new classes

  /** Some rule that auto-books at instant `t` belongs to `u`. */
  predicate MatchedBy(db: Db, u: Id, t: int)
  {
    exists s :: s in db.schedules && AutoBookMatch(db, s, t) && db.schedules[s].user == u
  }

  /** The auto-booking keeps every stored row and only appends +1 entries: it never debits. */
  lemma {:induction false} AutoBookAllKeeps(db: Db, cs: seq<Id>, holidays: set<int>)
    requires forall c :: c in cs ==> c in db.classes
    requires forall k :: k in db.bookings ==> k < db.nextId
    ensures Extends(db, AutoBookAll(db, cs, holidays))
  {
    if cs == [] {
      assert db.credits[|db.credits|..] == [];
    } else {
      var p := cs[..|cs| - 1];
      var c := cs[|cs| - 1];
      assert forall x :: x in p ==> x in cs;
      AutoBookAllKeeps(db, p, holidays);
      var d := AutoBookAll(db, p, holidays);
      assert c in cs;
      var t := d.classes[c].startTime;
      var q := MatchingSchedules(d, t);
      AutoBookClassKeeps(d, c, q, IsHoliday(t, holidays));
      assert AutoBookAll(db, cs, holidays) == AutoBookClass(d, c, q, IsHoliday(t, holidays));
      ExtendsTrans(db, d, AutoBookAll(db, cs, holidays));
    }
  }

  /** Every row the auto-booking adds is a fresh CONFIRMED booking on a new, non-holiday class, for a matching rule's owner. */
  lemma {:induction false} AutoBookAllNew(db: Db, cs: seq<Id>, holidays: set<int>)
    requires forall c :: c in cs ==> c in db.classes
    requires forall k :: k in db.bookings ==> k < db.nextId
    ensures forall k :: k in AutoBookAll(db, cs, holidays).bookings && k !in db.bookings ==>
      && AutoBookAll(db, cs, holidays).bookings[k] == NewBooking(AutoBookAll(db, cs, holidays).bookings[k].user,
                                                                 AutoBookAll(db, cs, holidays).bookings[k].gymClass)
      && AutoBookAll(db, cs, holidays).bookings[k].gymClass in cs
      && !IsHoliday(db.classes[AutoBookAll(db, cs, holidays).bookings[k].gymClass].startTime, holidays)
      && MatchedBy(db, AutoBookAll(db, cs, holidays).bookings[k].user,
                   db.classes[AutoBookAll(db, cs, holidays).bookings[k].gymClass].startTime)
  {
    if cs != [] {
      var p := cs[..|cs| - 1];
      var c := cs[|cs| - 1];
      assert forall x :: x in p ==> x in cs;
      AutoBookAllNew(db, p, holidays);
      AutoBookAllKeeps(db, p, holidays);
      var d := AutoBookAll(db, p, holidays);
      assert c in cs;
      var t := d.classes[c].startTime;
      var q := MatchingSchedules(d, t);
      AutoBookClassKeeps(d, c, q, IsHoliday(t, holidays));
      AutoBookClassNew(d, c, q, IsHoliday(t, holidays));
      var r := AutoBookAll(db, cs, holidays);
      assert r == AutoBookClass(d, c, q, IsHoliday(t, holidays));
      forall k | k in r.bookings && k !in db.bookings
        ensures && r.bookings[k] == NewBooking(r.bookings[k].user, r.bookings[k].gymClass)
                && r.bookings[k].gymClass in cs
                && !IsHoliday(db.classes[r.bookings[k].gymClass].startTime, holidays)
                && MatchedBy(db, r.bookings[k].user, db.classes[r.bookings[k].gymClass].startTime)
      {
        if k in d.bookings {
          assert r.bookings[k] == d.bookings[k];
        } else {
          var s :| s in q && s in d.schedules && d.schedules[s].user == r.bookings[k].user;
          assert AutoBookMatch(d, s, t);
          assert AutoBookMatch(db, s, t);
        }
      }
    }
  }

  /** Each of `cs` that is not a holiday has, in `bs`, a row for the owner of every rule of `db` matching it. */
  predicate Covered(db: Db, bs: map<Id, Booking>, cs: seq<Id>, holidays: set<int>)
    requires forall c :: c in cs ==> c in db.classes
  {
    forall c, s: Id ::
      (c in cs && !IsHoliday(db.classes[c].startTime, holidays) &&
       s < db.nextId && AutoBookMatch(db, s, db.classes[c].startTime)) ==>
      HasRow(bs, db.schedules[s].user, c)
  }

  /** Coverage survives more rows, and extends to one more class covered on its own. */
  lemma CoveredSnoc(db: Db, bs: map<Id, Booking>, bs': map<Id, Booking>, p: seq<Id>, last: Id, holidays: set<int>)
    requires forall c :: c in p ==> c in db.classes
    requires last in db.classes
    requires Covered(db, bs, p, holidays)
    requires forall k :: k in bs ==> k in bs' && bs'[k] == bs[k]
    requires forall s: Id :: (!IsHoliday(db.classes[last].startTime, holidays) &&
      s < db.nextId && AutoBookMatch(db, s, db.classes[last].startTime)) ==> HasRow(bs', db.schedules[s].user, last)
    ensures forall c :: c in p + [last] ==> c in db.classes
    ensures Covered(db, bs', p + [last], holidays)
  {
    forall c, s: Id | (c in p + [last] && !IsHoliday(db.classes[c].startTime, holidays) &&
      s < db.nextId && AutoBookMatch(db, s, db.classes[c].startTime))
      ensures HasRow(bs', db.schedules[s].user, c)
    {
      if c != last {
        assert c in p;
        var k :| k in bs && bs[k].user == db.schedules[s].user && bs[k].gymClass == c;
        assert k in bs';
      }
    }
  }

  /** The pass over one class covers every rule matching it, unless it is a holiday. */
  lemma ClassCovered(db: Db, d: Db, c: Id, holidays: set<int>)
    requires c in d.classes
    requires d.schedules == db.schedules && d.users == db.users && d.classes == db.classes
    requires d.nextId >= db.nextId
    requires forall k :: k in d.bookings ==> k < d.nextId
    ensures forall s: Id :: (!IsHoliday(db.classes[c].startTime, holidays) &&
      s < db.nextId && AutoBookMatch(db, s, db.classes[c].startTime)) ==>
      HasRow(AutoBookClass(d, c, MatchingSchedules(d, d.classes[c].startTime),
                           IsHoliday(d.classes[c].startTime, holidays)).bookings, db.schedules[s].user, c)
  {
    var t := d.classes[c].startTime;
    var q := MatchingSchedules(d, t);
    if !IsHoliday(t, holidays) {
      AutoBookWorkdayCovers(d, c, q);
      forall s: Id | s < db.nextId && AutoBookMatch(db, s, t)
        ensures HasRow(AutoBookClass(d, c, q, false).bookings, db.schedules[s].user, c)
      {
        assert AutoBookMatch(d, s, t);
        assert s in q;
      }
    }
  }

  /** Every new non-holiday class ends with a row for the owner of every rule that matches it. */
  lemma {:induction false} AutoBookAllCovers(db: Db, cs: seq<Id>, holidays: set<int>)
    requires forall c :: c in cs ==> c in db.classes
    requires forall k :: k in db.bookings ==> k < db.nextId
    ensures Covered(db, AutoBookAll(db, cs, holidays).bookings, cs, holidays)
  {
    if cs != [] {
      var p := cs[..|cs| - 1];
      var last := cs[|cs| - 1];
      assert forall x :: x in p ==> x in cs;
      AutoBookAllCovers(db, p, holidays);
      AutoBookAllKeeps(db, p, holidays);
      var d := AutoBookAll(db, p, holidays);
      assert last in cs;
      var t := d.classes[last].startTime;
      var q := MatchingSchedules(d, t);
      AutoBookClassKeeps(d, last, q, IsHoliday(t, holidays));
      ClassCovered(db, d, last, holidays);
      var r := AutoBookAll(db, cs, holidays);
      assert r == AutoBookClass(d, last, q, IsHoliday(t, holidays));
      CoveredSnoc(db, d.bookings, r.bookings, p, last, holidays);
      assert p + [last] == cs;
    }
  }

  /** A class's own pass appends, on a holiday, one +1 entry per matching rule's owner and adds no row; otherwise no entry. */
  lemma AutoBookStepLedger(db: Db, cs: seq<Id>, c: Id, holidays: set<int>)
    requires forall x :: x in cs ==> x in db.classes
    requires c in db.classes
    ensures var prev := AutoBookAll(db, cs, holidays);
      var t := db.classes[c].startTime;
      && AutoBookAll(db, cs + [c], holidays).credits ==
         prev.credits + (if IsHoliday(t, holidays) then Refunds(ScheduleOwners(db.schedules, MatchingSchedules(prev, t))) else [])
      && (IsHoliday(t, holidays) ==> AutoBookAll(db, cs + [c], holidays).bookings == prev.bookings)
  {
    assert (cs + [c])[..|cs|] == cs;
    assert forall x :: x in cs + [c] ==> x in db.classes;
  }

  // ---------------------------------------------------------------------------
  // The auto-booking as `create_gym_class` runs it

  /** The classes created by an accepted request are listed in the tables the auto-booking starts from. */
  lemma CreatedListsInstances(db: Db, req: ClassRequest)
    ensures forall c :: c in Consecutive(Prepared(db, req).nextId, SeriesLength(req.recurrence)) ==>
      c in Created(db, req).classes
    ensures Created(db, req).bookings == db.bookings && Created(db, req).credits == db.credits
    ensures Created(db, req).schedules == db.schedules && Created(db, req).users == db.users
    ensures Created(db, req).nextId >= db.nextId
  {
    InstancesPresent(Prepared(db, req), req, SeriesGroup(db, req), SeriesLength(req.recurrence));
  }

  /** Creating classes never debits: stored bookings stay, and the ledger only gains +1 entries. */
  lemma CreateNeverDebits(db: Db, req: ClassRequest, holidays: set<int>, now: int, user: Id, at: int)
    requires IdsIssued(db)
    ensures db.credits <= CreateGymClass(db, req, holidays, now).0.credits
    ensures OnlyRefundEntries(CreateGymClass(db, req, holidays, now).0.credits[|db.credits|..])
    ensures Balance(CreateGymClass(db, req, holidays, now).0.credits, user, at) >= Balance(db.credits, user, at)
    ensures forall k :: k in db.bookings ==>
      k in CreateGymClass(db, req, holidays, now).0.bookings && CreateGymClass(db, req, holidays, now).0.bookings[k] == db.bookings[k]
  {
    if req.start > now {
      var d3 := Created(db, req);
      var cs := Consecutive(Prepared(db, req).nextId, SeriesLength(req.recurrence));
      CreatedListsInstances(db, req);
      AutoBookAllKeeps(d3, cs, holidays);
      assert CreateGymClass(db, req, holidays, now).0 == AutoBookAll(d3, cs, holidays);
    } else {
      assert db.credits[|db.credits|..] == [];
    }
    var r := CreateGymClass(db, req, holidays, now).0;
    assert r.credits == db.credits + r.credits[|db.credits|..];
    RefundEntriesRaise(db.credits, r.credits[|db.credits|..], user, at);
  }

  /** A booking creation adds is a fresh CONFIRMED one on a new non-holiday instance, for the owner of a matching rule. */
  lemma CreateBookingsSound(db: Db, req: ClassRequest, holidays: set<int>, now: int)
    requires IdsIssued(db)
    ensures var r := CreateGymClass(db, req, holidays, now).0;
      forall k :: k in r.bookings && k !in db.bookings ==>
        && r.bookings[k] == NewBooking(r.bookings[k].user, r.bookings[k].gymClass)
        && Prepared(db, req).nextId <= r.bookings[k].gymClass < Prepared(db, req).nextId + SeriesLength(req.recurrence)
        && r.bookings[k].gymClass in r.classes
        && !IsHoliday(r.classes[r.bookings[k].gymClass].startTime, holidays)
        && MatchedBy(db, r.bookings[k].user, r.classes[r.bookings[k].gymClass].startTime)
  {
    if req.start > now {
      var d3 := Created(db, req);
      var cs := Consecutive(Prepared(db, req).nextId, SeriesLength(req.recurrence));
      CreatedListsInstances(db, req);
      AutoBookAllNew(d3, cs, holidays);
      var r := CreateGymClass(db, req, holidays, now).0;
      assert r == AutoBookAll(d3, cs, holidays);
      forall k | k in r.bookings && k !in db.bookings
        ensures MatchedBy(db, r.bookings[k].user, r.classes[r.bookings[k].gymClass].startTime)
      {
        var t := r.classes[r.bookings[k].gymClass].startTime;
        var s :| s in d3.schedules && AutoBookMatch(d3, s, t) && d3.schedules[s].user == r.bookings[k].user;
        assert AutoBookMatch(db, s, t);
      }
    }
  }

  /** Each new instance not on a holiday has a row for the owner of every rule matching it. */
  lemma CreateBookingsCover(db: Db, req: ClassRequest, holidays: set<int>, now: int, i: nat, s: Id)
    requires IdsIssued(db) && req.start > now && i < SeriesLength(req.recurrence)
    requires !IsHoliday(req.start + i * SecondsPerWeek, holidays)
    requires AutoBookMatch(db, s, req.start + i * SecondsPerWeek)
    ensures HasRow(CreateGymClass(db, req, holidays, now).0.bookings, db.schedules[s].user, Prepared(db, req).nextId + i)
  {
    var d3 := Created(db, req);
    var cs := Consecutive(Prepared(db, req).nextId, SeriesLength(req.recurrence));
    var c := Prepared(db, req).nextId + i;
    var t := req.start + i * SecondsPerWeek;
    CreatedListsInstances(db, req);
    InstancesPresent(Prepared(db, req), req, SeriesGroup(db, req), SeriesLength(req.recurrence));
    assert c in cs;
    assert d3.classes[c].startTime == t;
    MatchSameTables(db, d3, s, t);
    AutoBookAllCovers(d3, cs, holidays);
    var r := AutoBookAll(d3, cs, holidays);
    assert HasRow(r.bookings, d3.schedules[s].user, c);
    assert CreateGymClass(db, req, holidays, now).0 == r;
  }

  /** Whether a rule auto-books depends only on the rules and the users. */
  lemma MatchSameTables(a: Db, b: Db, s: Id, t: int)
    requires a.schedules == b.schedules && a.users == b.users
    ensures AutoBookMatch(a, s, t) == AutoBookMatch(b, s, t)
  {
  }

  // ---------------------------------------------------------------------------
  // Cancelling classes

  /** Stamping a class leaves the CONFIRMED-booking query of any class as it was. */
  lemma StampKeepsConfirmed(db: Db, c: Id, x: Id, g: GymClass)
    ensures ConfirmedOn(db.(classes := db.classes[c := g]), x) == ConfirmedOn(db, x)
  {
    var d := db.(classes := db.classes[c := g]);
    SelectSame(db.nextId,
      k => k in d.bookings && d.bookings[k].gymClass == x && d.bookings[k].status == Confirmed,
      k => k in db.bookings && db.bookings[k].gymClass == x && db.bookings[k].status == Confirmed);
  }

  /** One target: it is stamped, its CONFIRMED bookings are cancelled, and each of them is refunded iff `refund`. */
  lemma CancelClassEffect(db: Db, c: Id, refund: bool, now: int)
    requires c in db.classes
    requires forall k :: k in db.bookings ==> k < db.nextId
    ensures CancelClass(db, c, refund, now).classes == db.classes[c := db.classes[c].(cancelledAt := Some(now))]
    ensures CancelClass(db, c, refund, now).bookings.Keys == db.bookings.Keys
    ensures forall k :: k in db.bookings ==>
      CancelClass(db, c, refund, now).bookings[k] ==
        if db.bookings[k].gymClass == c && db.bookings[k].status == Confirmed then Cancel(db.bookings[k], now)
        else db.bookings[k]
    ensures CancelClass(db, c, refund, now).credits ==
      db.credits + if refund then Refunds(BookingOwners(db.bookings, ConfirmedOn(db, c))) else []
  {
    StampKeepsConfirmed(db, c, c, db.classes[c].(cancelledAt := Some(now)));
  }

  /** `r` is `a` with every class listed in `ts` stamped cancelled at `now`. */
  predicate ClassesStamped(a: map<Id, GymClass>, r: map<Id, GymClass>, ts: seq<Id>, now: int)
  {
    && r.Keys == a.Keys
    && forall k :: k in a ==> r[k] == if k in ts then a[k].(cancelledAt := Some(now)) else a[k]
  }

  /** `r` is `a` with every CONFIRMED booking on a class listed in `ts` cancelled at `now`. */
  predicate BookingsCancelled(a: map<Id, Booking>, r: map<Id, Booking>, ts: seq<Id>, now: int)
  {
    && r.Keys == a.Keys
    && forall k :: k in a ==>
      r[k] == if a[k].gymClass in ts && a[k].status == Confirmed then Cancel(a[k], now) else a[k]
  }

  /** Stamping one more class. */
  lemma ClassesStampedSnoc(a: map<Id, GymClass>, b: map<Id, GymClass>, p: seq<Id>, t: Id, now: int)
    requires ClassesStamped(a, b, p, now) && t in b
    ensures ClassesStamped(a, b[t := b[t].(cancelledAt := Some(now))], p + [t], now)
  {
  }

  /** Cancelling the CONFIRMED bookings of one more class. */
  lemma BookingsCancelledSnoc(a: map<Id, Booking>, b: map<Id, Booking>, c: map<Id, Booking>, p: seq<Id>, t: Id, now: int)
    requires BookingsCancelled(a, b, p, now)
    requires c.Keys == b.Keys
    requires forall k :: k in b ==> c[k] == if b[k].gymClass == t && b[k].status == Confirmed then Cancel(b[k], now) else b[k]
    ensures BookingsCancelled(a, c, p + [t], now)
  {
    forall k | k in a
      ensures c[k] == if a[k].gymClass in p + [t] && a[k].status == Confirmed then Cancel(a[k], now) else a[k]
    {
      assert a[k].gymClass in p + [t] <==> a[k].gymClass in p || a[k].gymClass == t;
    }
  }

  /** One more target of the loop. */
  lemma CancelClassesSnoc(db: Db, p: seq<Id>, t: Id, refund: bool, now: int)
    requires forall x :: x in p ==> x in db.classes
    requires t in db.classes
    ensures forall x :: x in p + [t] ==> x in db.classes
    ensures t in CancelClasses(db, p, refund, now).classes
    ensures CancelClasses(db, p + [t], refund, now) == CancelClass(CancelClasses(db, p, refund, now), t, refund, now)
  {
    assert (p + [t])[..|p|] == p;
  }

  /** The loop over the targets stamps each target and no other class. */
  lemma {:induction false} CancelClassesStamps(db: Db, ts: seq<Id>, refund: bool, now: int)
    requires forall t :: t in ts ==> t in db.classes
    requires forall k :: k in db.bookings ==> k < db.nextId
    ensures ClassesStamped(db.classes, CancelClasses(db, ts, refund, now).classes, ts, now)
  {
    if ts == [] {
      assert ClassesStamped(db.classes, db.classes, [], now);
    } else {
      var p := ts[..|ts| - 1];
      var t := ts[|ts| - 1];
      assert p + [t] == ts;
      assert forall x :: x in p ==> x in ts;
      CancelClassesStamps(db, p, refund, now);
      CancelClassesSnoc(db, p, t, refund, now);
      var d := CancelClasses(db, p, refund, now);
      CancelClassEffect(d, t, refund, now);
      ClassesStampedSnoc(db.classes, d.classes, p, t, now);
    }
  }

  /** The loop over the targets cancels every CONFIRMED booking on a target and leaves the other rows. */
  lemma {:induction false} CancelClassesCancels(db: Db, ts: seq<Id>, refund: bool, now: int)
    requires forall t :: t in ts ==> t in db.classes
    requires forall k :: k in db.bookings ==> k < db.nextId
    ensures BookingsCancelled(db.bookings, CancelClasses(db, ts, refund, now).bookings, ts, now)
  {
    if ts == [] {
      assert BookingsCancelled(db.bookings, db.bookings, [], now);
    } else {
      var p := ts[..|ts| - 1];
      var t := ts[|ts| - 1];
      assert p + [t] == ts;
      assert forall x :: x in p ==> x in ts;
      CancelClassesCancels(db, p, refund, now);
      CancelClassesSnoc(db, p, t, refund, now);
      var d := CancelClasses(db, p, refund, now);
      CancelClassEffect(d, t, refund, now);
      BookingsCancelledSnoc(db.bookings, d.bookings, CancelClass(d, t, refund, now).bookings, p, t, now);
    }
  }

  /** Without refunds the loop leaves the ledger alone. */
  lemma {:induction false} CancelClassesNoRefund(db: Db, ts: seq<Id>, now: int)
    requires forall t :: t in ts ==> t in db.classes
    ensures CancelClasses(db, ts, false, now).credits == db.credits
  {
    if ts != [] {
      var p := ts[..|ts| - 1];
      assert forall x :: x in p ==> x in ts;
      CancelClassesNoRefund(db, p, now);
    }
  }

  /** An unknown or already cancelled class is rejected and nothing changes. */
  lemma DeleteRejects(db: Db, c: Id, cancelSeries: bool, now: int)
    ensures DeleteGymClass(db, c, cancelSeries, now).1 == Err(ClassNotFound) <==> c !in db.classes
    ensures DeleteGymClass(db, c, cancelSeries, now).1 == Err(ClassAlreadyCancelled) <==>
      c in db.classes && db.classes[c].cancelledAt.Some?
    ensures DeleteGymClass(db, c, cancelSeries, now).1.Err? ==> DeleteGymClass(db, c, cancelSeries, now).0 == db
  {
  }

  /**
   * An accepted deletion stamps exactly its targets and cancels exactly the CONFIRMED bookings on them;
   * cancelling a series refunds nothing.
   */
  lemma DeleteEffect(db: Db, c: Id, cancelSeries: bool, now: int)
    requires c in db.classes && db.classes[c].cancelledAt.None?
    requires forall k :: k in db.bookings ==> k < db.nextId
    ensures ClassesStamped(db.classes, DeleteGymClass(db, c, cancelSeries, now).0.classes,
                           CancelTargets(db, c, cancelSeries, now), now)
    ensures BookingsCancelled(db.bookings, DeleteGymClass(db, c, cancelSeries, now).0.bookings,
                              CancelTargets(db, c, cancelSeries, now), now)
    ensures DeleteGymClass(db, c, cancelSeries, now).1.Ok?
    ensures DeleteGymClass(db, c, cancelSeries, now).1.value.classesCancelled == |CancelTargets(db, c, cancelSeries, now)|
    ensures cancelSeries ==> DeleteGymClass(db, c, cancelSeries, now).0.credits == db.credits
    ensures cancelSeries ==> DeleteGymClass(db, c, cancelSeries, now).1.value.creditsRefunded == 0
  {
    var ts := CancelTargets(db, c, cancelSeries, now);
    assert forall t :: t in ts ==> t in db.classes;
    CancelClassesStamps(db, ts, !cancelSeries, now);
    CancelClassesCancels(db, ts, !cancelSeries, now);
    if cancelSeries {
      CancelClassesNoRefund(db, ts, now);
    }
  }

  /** The targets: the class alone, or with `cancel_series` and a group, the group's future active members. */
  lemma DeleteTargets(db: Db, c: Id, cancelSeries: bool, now: int)
    requires c in db.classes
    ensures !(cancelSeries && db.classes[c].recurrenceGroup.Some?) ==> CancelTargets(db, c, cancelSeries, now) == [c]
    ensures cancelSeries && db.classes[c].recurrenceGroup.Some? ==>
      forall k :: k in CancelTargets(db, c, cancelSeries, now) <==>
        (&& k < db.nextId && k in db.classes && db.classes[k].recurrenceGroup == db.classes[c].recurrenceGroup
         && db.classes[k].startTime > now && db.classes[k].cancelledAt.None?)
  {
  }

  /** Cancelling one class refunds each of its CONFIRMED bookings once to its owner, and reports the count. */
  lemma DeleteSingleRefunds(db: Db, c: Id, now: int, user: Id, at: int)
    requires c in db.classes && db.classes[c].cancelledAt.None?
    requires forall k :: k in db.bookings ==> k < db.nextId
    ensures DeleteGymClass(db, c, false, now).0.credits == db.credits + Refunds(BookingOwners(db.bookings, ConfirmedOn(db, c)))
    ensures Balance(DeleteGymClass(db, c, false, now).0.credits, user, at) ==
      Balance(db.credits, user, at) + multiset(BookingOwners(db.bookings, ConfirmedOn(db, c)))[user]
    ensures DeleteGymClass(db, c, false, now).1 == Ok(CancelOutcome(1, |ConfirmedOn(db, c)|))
  {
    assert CancelTargets(db, c, false, now) == [c];
    assert [c][..0] == [];
    var r := CancelClass(db, c, true, now);
    assert CancelClasses(db, [c], true, now) == r;
    CancelClassEffect(db, c, true, now);
    assert DeleteGymClass(db, c, false, now) == (r, Ok(CancelOutcome(1, |r.credits| - |db.credits|)));
    BalanceAfterRefunds(db.credits, BookingOwners(db.bookings, ConfirmedOn(db, c)), user, at);
  }

  // ---------------------------------------------------------------------------
  // update_gym_class

  /** `g2` is `g` with the fields `patch` sends written and every other field kept. */
  predicate PatchedFrom(g: GymClass, g2: GymClass, patch: ClassPatch)
  {
    && (if patch.name.Some? then g2.name == patch.name.value else g2.name == g.name)
    && (if patch.instructor.Some? then g2.instructor == patch.instructor.value else g2.instructor == g.instructor)
    && (if patch.maxSlots.Some? then g2.maxSlots == patch.maxSlots.value else g2.maxSlots == g.maxSlots)
    && (if patch.durationMinutes.Some? then g2.durationMinutes == patch.durationMinutes.value
        else g2.durationMinutes == g.durationMinutes)
    && g2.startTime == g.startTime && g2.recurrenceGroup == g.recurrenceGroup
    && g2.recurrence == g.recurrence && g2.cancelledAt == g.cancelledAt
  }

  /**
   * `update_gym_class` rejects an unknown class, then an instructor name that is not active, each
   * without change; otherwise only class `c` changes, and only in the fields the patch sends.
   */
  lemma UpdateEffect(db: Db, c: Id, patch: ClassPatch)
    ensures var (r, out) := UpdateGymClass(db, c, patch);
      && (out == Err(ClassNotFound) <==> c !in db.classes)
      && (out == Err(InstructorNotFound) <==>
            c in db.classes && patch.instructor.Some? && patch.instructor.value !in db.instructors)
      && (out.Err? ==> r == db)
      && (out.Ok? ==> c in db.classes && r == db.(classes := db.classes[c := out.value])
                      && PatchedFrom(db.classes[c], out.value, patch))
  {
  }

  // ---------------------------------------------------------------------------
  // The integrity rules

  /** Patching a class keeps every integrity rule. */
  lemma UpdateGymClassKeepsValid(db: Db, c: Id, patch: ClassPatch)
    requires Valid(db)
    ensures Valid(UpdateGymClass(db, c, patch).0)
  {
  }

  /** The creation loop keeps every integrity rule when the group id was handed out already. */
  lemma {:induction false} InsertInstancesKeepsValid(db: Db, req: ClassRequest, group: Option<Id>, count: nat)
    requires Valid(db)
    requires group.Some? ==> group.value < db.nextId
    ensures Valid(InsertInstances(db, req, group, count))
  {
    if count > 0 {
      InsertInstancesKeepsValid(db, req, group, count - 1);
      var d := InsertInstances(db, req, group, count - 1);
      var r := InsertInstances(db, req, group, count);
      assert r == d.(classes := d.classes[d.nextId := Instance(req, group, count - 1)], nextId := d.nextId + 1);
      assert IdsIssued(r);
      assert RefsExist(r);
    }
  }

  /** One working-day step keeps every integrity rule. */
  lemma BookOneKeepsValid(d: Db, u: Id, c: Id)
    requires Valid(d) && u in d.users && c in d.classes
    ensures Valid(BookOne(d, u, c))
  {
    if RowFor(d, u, c).None? {
      InsertBookingKeepsValid(d, u, c);
    }
  }

  /** The working-day loop keeps every integrity rule. */
  lemma {:induction false} BookEachKeepsValid(db: Db, c: Id, q: seq<Id>)
    requires Valid(db) && c in db.classes
    requires forall s :: s in q ==> s in db.schedules
    ensures Valid(BookEach(db, c, q))
  {
    if q != [] {
      var p := q[..|q| - 1];
      assert forall s :: s in p ==> s in q;
      BookEachKeepsValid(db, c, p);
      var d := BookEach(db, c, p);
      assert q[|q| - 1] in q;
      BookOneKeepsValid(d, d.schedules[q[|q| - 1]].user, c);
    }
  }

  /** One class's auto-booking keeps every integrity rule; the holiday refunds go to existing users. */
  lemma AutoBookClassKeepsValid(db: Db, c: Id, q: seq<Id>, holiday: bool)
    requires Valid(db) && c in db.classes
    requires forall s :: s in q ==> s in db.schedules
    ensures Valid(AutoBookClass(db, c, q, holiday))
  {
    if holiday {
      var us := ScheduleOwners(db.schedules, q);
      assert forall i :: 0 <= i < |us| ==> us[i] in db.users by {
        forall i | 0 <= i < |us| ensures us[i] in db.users {
          assert q[i] in q;
        }
      }
      RefundsKeepValid(db, us);
    } else {
      BookEachKeepsValid(db, c, q);
    }
  }

  /** The auto-booking over the created classes keeps every integrity rule. */
  lemma {:induction false} AutoBookAllKeepsValid(db: Db, cs: seq<Id>, holidays: set<int>)
    requires Valid(db)
    requires forall c :: c in cs ==> c in db.classes
    ensures Valid(AutoBookAll(db, cs, holidays))
  {
    if cs != [] {
      var p := cs[..|cs| - 1];
      assert forall c :: c in p ==> c in cs;
      AutoBookAllKeepsValid(db, p, holidays);
      var d := AutoBookAll(db, p, holidays);
      var c := cs[|cs| - 1];
      assert c in cs;
      var t := d.classes[c].startTime;
      AutoBookClassKeepsValid(d, c, MatchingSchedules(d, t), IsHoliday(t, holidays));
    }
  }

  /** `create_gym_class` keeps every integrity rule. */
  lemma CreateGymClassKeepsValid(db: Db, req: ClassRequest, holidays: set<int>, now: int)
    requires Valid(db)
    ensures Valid(CreateGymClass(db, req, holidays, now).0)
  {
    if req.start > now {
      var d2 := Prepared(db, req);
      var n := SeriesLength(req.recurrence);
      assert Valid(d2);
      InsertInstancesKeepsValid(d2, req, SeriesGroup(db, req), n);
      InstancesPresent(d2, req, SeriesGroup(db, req), n);
      AutoBookAllKeepsValid(Created(db, req), Consecutive(d2.nextId, n), holidays);
    }
  }

  /** One class cancelled, with or without refunds, keeps every integrity rule. */
  lemma CancelClassKeepsValid(db: Db, c: Id, refund: bool, now: int)
    requires Valid(db) && c in db.classes
    ensures Valid(CancelClass(db, c, refund, now))
  {
    var d := db.(classes := db.classes[c := db.classes[c].(cancelledAt := Some(now))]);
    StampClassKeepsValid(db, c, now);
    CancelBookingsKeepsValid(d, ConfirmedOn(d, c), refund, now);
  }

  /** Stamping a class as cancelled keeps every integrity rule. */
  lemma StampClassKeepsValid(db: Db, c: Id, now: int)
    requires Valid(db) && c in db.classes
    ensures Valid(db.(classes := db.classes[c := db.classes[c].(cancelledAt := Some(now))]))
  {
    var d := db.(classes := db.classes[c := db.classes[c].(cancelledAt := Some(now))]);
    assert d.classes.Keys == db.classes.Keys;
    assert IdsIssued(d);
  }

  /** Cancelling the listed bookings, and refunding their owners when asked, keeps every integrity rule. */
  lemma CancelBookingsKeepsValid(d: Db, q: seq<Id>, refund: bool, now: int)
    requires Valid(d) && forall k :: k in q ==> k in d.bookings
    ensures Valid(d.(bookings := CancelAll(d.bookings, q, now),
                     credits := d.credits + if refund then Refunds(BookingOwners(d.bookings, q)) else []))
  {
    CancelAllKeepsValid(d, q, now);
    var d2 := d.(bookings := CancelAll(d.bookings, q, now));
    var us := BookingOwners(d.bookings, q);
    if refund {
      forall i | 0 <= i < |us| ensures us[i] in d2.users {
        assert q[i] in q;
      }
      RefundsKeepValid(d2, us);
    } else {
      assert d2.credits + [] == d2.credits;
    }
  }

  /** The cancellation loop keeps every integrity rule. */
  lemma {:induction false} CancelClassesKeepsValid(db: Db, ts: seq<Id>, refund: bool, now: int)
    requires Valid(db)
    requires forall t :: t in ts ==> t in db.classes
    ensures Valid(CancelClasses(db, ts, refund, now))
  {
    if ts != [] {
      var p := ts[..|ts| - 1];
      assert forall t :: t in p ==> t in ts;
      CancelClassesKeepsValid(db, p, refund, now);
      assert ts[|ts| - 1] in ts;
      CancelClassKeepsValid(CancelClasses(db, p, refund, now), ts[|ts| - 1], refund, now);
    }
  }

  /** `delete_gym_class` keeps every integrity rule. */
  lemma DeleteGymClassKeepsValid(db: Db, c: Id, cancelSeries: bool, now: int)
    requires Valid(db)
    ensures Valid(DeleteGymClass(db, c, cancelSeries, now).0)
  {
    if c in db.classes && db.classes[c].cancelledAt.None? {
      var ts := CancelTargets(db, c, cancelSeries, now);
      assert forall t :: t in ts ==> t in db.classes;
      CancelClassesKeepsValid(db, ts, !cancelSeries, now);
    }
  }
}
