/**
 * `update_profile`: the edit of name, phone and DNI, and the account merge.
 * When the DNI the user enters belongs to another, LOCAL (shadow) account,
 * everything the shadow owns moves over: its bookings, unless the user
 * already has a row for that class; every ledger entry; its fixed
 * schedules, unless the user already has one for that day and time. The
 * shadow is then deleted and the DNI assigned. A DNI held by a real
 * account is refused. Every refusal rolls the whole request back.
 */
module Profile {
  import opened Wrappers
  import opened Models
  import opened Text
  import opened Ledger
  import opened Store

  /** Python truthiness of an optional string: present and non-empty. */
  predicate Present(s: Option<string>)
  {
    s.Some? && s.value != ""
  }

  /** The user other than `me` holding DNI `dni`. */
  function HolderOf(db: Db, me: Id, dni: string): (r: Option<Id>)
    ensures r.Some? ==> r.value in db.users && r.value != me && db.users[r.value].dni == Some(dni)
    ensures r.None? ==> forall k :: k in db.users && k < db.nextId && k != me ==> db.users[k].dni != Some(dni)
  {
    var p := (k: Id) => k in db.users && db.users[k].dni == Some(dni) && k != me;
    assert forall k: Id :: p(k) == (k in db.users && db.users[k].dni == Some(dni) && k != me);
    First(db.nextId, p)
  }

  /** The name and phone edits: the name stripped; an empty phone clears it, any other is stripped. */
  function Edited(u: User, fullName: Option<string>, phone: Option<string>): (r: User)
    ensures r.email == u.email && r.dni == u.dni && r.provider == u.provider && r.socialId == u.socialId
    ensures r.fullName == if fullName.Some? then Some(Strip(fullName.value)) else u.fullName
    ensures phone.None? ==> r.phone == u.phone
    ensures phone == Some("") ==> r.phone.None?
    ensures phone.Some? && phone.value != "" ==> r.phone == Some(Strip(phone.value))
    ensures r.certificate == u.certificate && r.isTrial == u.isTrial && r.disabled == u.disabled
  {
    u.(fullName := if fullName.Some? then Some(Strip(fullName.value)) else u.fullName,
       phone := if phone.None? then u.phone else if phone.value == "" then None else Some(Strip(phone.value)))
  }

  // ---------------------------------------------------------------------------
  // The three transfers

  /** The shadow's bookings, in id order, as the query lists them before the loop. */
  function BookingsOf(db: Db, s: Id): (r: seq<Id>)
    ensures forall k :: k in r <==> k < db.nextId && k in db.bookings && db.bookings[k].user == s
    ensures Ascending(r)
  {
    Select(db.nextId, k => k in db.bookings && db.bookings[k].user == s)
  }

  /** The shadow's fixed schedules, in id order. */
  function SchedulesOf(db: Db, s: Id): (r: seq<Id>)
    ensures forall k :: k in r <==> k < db.nextId && k in db.schedules && db.schedules[k].user == s
    ensures Ascending(r)
  {
    Select(db.nextId, k => k in db.schedules && db.schedules[k].user == s)
  }

  /**
   * One pass of the bookings loop over the current rows `bs`: the booking is
   * deleted when `to` already has a row (of any status) for its class, and
   * handed to `to` otherwise.
   */
  function MoveBooking(d: Db, bs: map<Id, Booking>, to: Id, k: Id): map<Id, Booking>
  {
    if k !in bs then bs
    else if RowFor(d.(bookings := bs), to, bs[k].gymClass).Some? then bs - {k}
    else bs[k := bs[k].(user := to)]
  }

  /** The bookings loop over the listed ids, in order. */
  function MoveBookings(d: Db, to: Id, ks: seq<Id>): map<Id, Booking>
  {
    if ks == [] then d.bookings else MoveBooking(d, MoveBookings(d, to, ks[..|ks| - 1]), to, ks[|ks| - 1])
  }

  /** One pass of the schedules loop: deleted when `to` already has a rule on that slot, else handed over. */
  function MoveSchedule(d: Db, ss: map<Id, FixedSchedule>, to: Id, k: Id): map<Id, FixedSchedule>
  {
    if k !in ss then ss
    else if ScheduleFor(d.(schedules := ss), to, ss[k].day, ss[k].time).Some? then ss - {k}
    else ss[k := ss[k].(user := to)]
  }

  /** The schedules loop over the listed ids, in order. */
  function MoveSchedules(d: Db, to: Id, ks: seq<Id>): map<Id, FixedSchedule>
  {
    if ks == [] then d.schedules else MoveSchedule(d, MoveSchedules(d, to, ks[..|ks| - 1]), to, ks[|ks| - 1])
  }

  /**
   * The rule the bookings loop realises, independent of the order: a shadow
   * booking on a class where `to` had a row (of any status) is gone, any
   * other is `to`'s; the rest are untouched.
   */
  function MergedBookings(d: Db, s: Id, to: Id): map<Id, Booking>
  {
    map k | k in d.bookings && (d.bookings[k].user != s || RowFor(d, to, d.bookings[k].gymClass).None?) ::
      if d.bookings[k].user == s then d.bookings[k].(user := to) else d.bookings[k]
  }

  /** The rule the schedules loop realises, on (day, time). */
  function MergedSchedules(d: Db, s: Id, to: Id): map<Id, FixedSchedule>
  {
    map k | k in d.schedules
            && (d.schedules[k].user != s || ScheduleFor(d, to, d.schedules[k].day, d.schedules[k].time).None?) ::
      if d.schedules[k].user == s then d.schedules[k].(user := to) else d.schedules[k]
  }

  /** The merged target: trial if the shadow was, the shadow's certificate if it had one and the target none, the DNI. */
  function Absorbed(t: User, sh: User, dni: string): User
  {
    t.(isTrial := t.isTrial || sh.isTrial,
       certificate := if Present(sh.certificate) && !Present(t.certificate) then sh.certificate else t.certificate,
       dni := Some(dni))
  }

  /** The whole merge of shadow `s` into `me`, the shadow deleted. */
  function Merge(d: Db, s: Id, me: Id, dni: string): (r: Db)
    requires s in d.users && me in d.users
    ensures r.classes == d.classes && r.nextId == d.nextId && r.instructors == d.instructors
    ensures r.settings == d.settings
  {
    d.(bookings := MoveBookings(d, me, BookingsOf(d, s)),
       credits := Reassign(d.credits, s, me),
       schedules := MoveSchedules(d, me, SchedulesOf(d, s)),
       users := (d.users - {s})[me := Absorbed(d.users[me], d.users[s], dni)])
  }

  /** The commit: a clash of the edited user on a unique column rolls everything back. */
  function Committed(db: Db, d: Db, me: Id): (Db, Result<()>)
    requires me in d.users
  {
    if ClashesWith(d.users, d.users[me], Some(me)) then (db, Err(IntegrityError)) else (d, Ok(()))
  }

  /** The DNI step on the edited tables `d`: a free DNI is assigned, a LOCAL holder merged, a real one refused. */
  function ApplyDni(db: Db, d: Db, me: Id, x: string): (Db, Result<()>)
    requires me in db.users && d.users.Keys == db.users.Keys
  {
    match HolderOf(db, me, x)
    case None => Committed(db, d.(users := d.users[me := d.users[me].(dni := Some(x))]), me)
    case Some(s) =>
      if db.users[s].provider != Local then (db, Err(DniTaken))
      else Committed(db, Merge(d, s, me, x), me)
  }

  /** `update_profile` for user `me`; a `None` argument is a field not sent. */
  function UpdateProfile(db: Db, me: Id, fullName: Option<string>, dni: Option<string>, phone: Option<string>)
    : (Db, Result<()>)
    requires me in db.users
  {
    if fullName.Some? && Strip(fullName.value) == "" then (db, Err(EmptyName))
    else if dni.Some? && Strip(dni.value) == "" then (db, Err(EmptyDni))
    else if dni.Some? && !IsDigits(Strip(dni.value)) then (db, Err(DniNotNumeric))
    else if fullName.None? && phone.None? && dni.None? then (db, Err(NothingToUpdate))
    else
      var d := db.(users := db.users[me := Edited(db.users[me], fullName, phone)]);
      if dni.None? then Committed(db, d, me) else ApplyDni(db, d, me, Strip(dni.value))
  }

  // ---------------------------------------------------------------------------
  // The loops of the transfers

  /** The bookings loop: each shadow booking, in id order, deleted or handed to `to` by the current rows. */
  method MoveShadowBookings(d: Db, s: Id, to: Id) returns (bs: map<Id, Booking>)
    ensures bs == MoveBookings(d, to, BookingsOf(d, s))
  {
    var ks := BookingsOf(d, s);
    bs := d.bookings;
    for i := 0 to |ks|
      invariant bs == MoveBookings(d, to, ks[..i])
    {
      assert ks[..i + 1][..i] == ks[..i];
      var k := ks[i];
      ghost var next := MoveBooking(d, bs, to, k);
      assert MoveBookings(d, to, ks[..i + 1]) == next;
      if k in bs {
        if RowFor(d.(bookings := bs), to, bs[k].gymClass).Some? {
          bs := bs - {k};
        } else {
          bs := bs[k := bs[k].(user := to)];
        }
      }
    }
    assert ks[..|ks|] == ks;
  }

  /** The schedules loop: each shadow rule, in id order, deleted or handed to `to` by the current rules. */
  method MoveShadowSchedules(d: Db, s: Id, to: Id) returns (ss: map<Id, FixedSchedule>)
    ensures ss == MoveSchedules(d, to, SchedulesOf(d, s))
  {
    var ks := SchedulesOf(d, s);
    ss := d.schedules;
    for i := 0 to |ks|
      invariant ss == MoveSchedules(d, to, ks[..i])
    {
      assert ks[..i + 1][..i] == ks[..i];
      var k := ks[i];
      ghost var next := MoveSchedule(d, ss, to, k);
      assert MoveSchedules(d, to, ks[..i + 1]) == next;
      if k in ss {
        if ScheduleFor(d.(schedules := ss), to, ss[k].day, ss[k].time).Some? {
          ss := ss - {k};
        } else {
          ss := ss[k := ss[k].(user := to)];
        }
      }
    }
    assert ks[..|ks|] == ks;
  }

  /** The credits loop: each entry of the shadow handed to `to`, in place. */
  method MoveShadowCredits(cs: seq<Credit>, s: Id, to: Id) returns (r: seq<Credit>)
    ensures r == Reassign(cs, s, to)
  {
    r := cs;
    var i := 0;
    while i < |r|
      invariant 0 <= i <= |r| && |r| == |cs|
      invariant forall j :: 0 <= j < i ==> r[j] == if cs[j].user == s then cs[j].(user := to) else cs[j]
      invariant forall j :: i <= j < |r| ==> r[j] == cs[j]
    {
      if r[i].user == s {
        r := r[i := r[i].(user := to)];
      }
      i := i + 1;
    }
  }

  /** The merge as `update_profile` runs it: the three loops, then the target absorbs the shadow, which is deleted. */
  method MergeShadow(d: Db, s: Id, me: Id, dni: string) returns (r: Db)
    requires s in d.users && me in d.users
    ensures r == Merge(d, s, me, dni)
  {
    var bs := MoveShadowBookings(d, s, me);
    var cs := MoveShadowCredits(d.credits, s, me);
    var ss := MoveShadowSchedules(d, s, me);
    var t := Absorbed(d.users[me], d.users[s], dni);
    r := d.(bookings := bs, credits := cs, schedules := ss, users := (d.users - {s})[me := t]);
  }

  // ---------------------------------------------------------------------------
  // The loops follow the order-independent rules

  /** Dropping the last element of an ascending list leaves an ascending list without it. */
  lemma AscendingLast(ks: seq<Id>)
    requires Ascending(ks) && ks != []
    ensures Ascending(ks[..|ks| - 1]) && ks[|ks| - 1] !in ks[..|ks| - 1]
    ensures ks == ks[..|ks| - 1] + [ks[|ks| - 1]]
  {
    var p := ks[..|ks| - 1];
    forall j | 0 <= j < |p| ensures p[j] != ks[|ks| - 1] {
      assert ks[j] < ks[|ks| - 1];
    }
  }

  /** Shadow booking `k` handled by the rule: deleted when `to` had a row for its class, else handed over. */
  predicate BookingMoved(d: Db, bs: map<Id, Booking>, s: Id, to: Id, k: Id)
  {
    && k in d.bookings && d.bookings[k].user == s
    && (RowFor(d, to, d.bookings[k].gymClass).Some? ==> k !in bs)
    && (RowFor(d, to, d.bookings[k].gymClass).None? ==> k in bs && bs[k] == d.bookings[k].(user := to))
  }

  /**
   * The bookings loop part way: the ids in `done` (shadow bookings) are
   * deleted or handed over by the rule, every other row is as it was.
   */
  predicate BookingsMovedFor(d: Db, bs: map<Id, Booking>, s: Id, to: Id, done: seq<Id>)
  {
    && bs.Keys <= d.bookings.Keys
    && (forall k :: k in d.bookings && k !in done ==> k in bs && bs[k] == d.bookings[k])
    && (forall k :: k in done ==> BookingMoved(d, bs, s, to, k))
  }

  /**
   * Part way through, the current tables have a row of `to` for the class
   * of an unprocessed shadow booking exactly when the original ones do: the
   * rows handed over so far are on other classes, the shadow's pairs being unique.
   */
  lemma DuplicateSeenAlike(d: Db, bs: map<Id, Booking>, s: Id, to: Id, done: seq<Id>, k: Id)
    requires s != to && BookingPairsUnique(d.bookings) && forall j :: j in d.bookings ==> j < d.nextId
    requires BookingsMovedFor(d, bs, s, to, done)
    requires k in d.bookings && d.bookings[k].user == s && k !in done
    ensures RowFor(d.(bookings := bs), to, d.bookings[k].gymClass).Some? <==> RowFor(d, to, d.bookings[k].gymClass).Some?
  {
    var c := d.bookings[k].gymClass;
    var cur := d.(bookings := bs);
    var a := RowFor(cur, to, c);
    if a.Some? {
      var j := a.value;
      assert bs[j] == d.bookings[j];
    }
    var o := RowFor(d, to, c);
    if o.Some? {
      var j := o.value;
      assert j !in done && j in bs;
      assert j < cur.nextId;
    }
  }

  /** A shadow booking on a class where `to` already has a row is deleted. */
  lemma BookingDropStep(d: Db, bs: map<Id, Booking>, s: Id, to: Id, done: seq<Id>, k: Id)
    requires BookingsMovedFor(d, bs, s, to, done)
    requires k in d.bookings && d.bookings[k].user == s && k !in done
    requires RowFor(d, to, d.bookings[k].gymClass).Some?
    ensures BookingsMovedFor(d, bs - {k}, s, to, done + [k])
  {
    var bs' := bs - {k};
    forall j | j in d.bookings && j !in done + [k] ensures j in bs' && bs'[j] == d.bookings[j] {
      assert j !in done && j != k;
    }
    forall j | j in done + [k] ensures BookingMoved(d, bs', s, to, j) {
      if j != k {
        assert j in done;
      }
    }
  }

  /** Any other shadow booking is handed to `to`. */
  lemma BookingHandStep(d: Db, bs: map<Id, Booking>, s: Id, to: Id, done: seq<Id>, k: Id)
    requires BookingsMovedFor(d, bs, s, to, done)
    requires k in d.bookings && d.bookings[k].user == s && k !in done
    requires RowFor(d, to, d.bookings[k].gymClass).None?
    ensures k in bs && BookingsMovedFor(d, bs[k := bs[k].(user := to)], s, to, done + [k])
  {
    var bs' := bs[k := bs[k].(user := to)];
    forall j | j in d.bookings && j !in done + [k] ensures j in bs' && bs'[j] == d.bookings[j] {
      assert j !in done && j != k;
    }
    forall j | j in done + [k] ensures BookingMoved(d, bs', s, to, j) {
      if j != k {
        assert j in done;
      }
    }
  }

  /** Part way, the fold has handled the listed shadow bookings by the rule and left every other row. */
  lemma {:induction false} MoveBookingsFollowRule(d: Db, s: Id, to: Id, ks: seq<Id>)
    requires s != to && BookingPairsUnique(d.bookings) && forall j :: j in d.bookings ==> j < d.nextId
    requires Ascending(ks) && forall k :: k in ks ==> k in d.bookings && d.bookings[k].user == s
    ensures BookingsMovedFor(d, MoveBookings(d, to, ks), s, to, ks)
  {
    if ks != [] {
      var p, k := ks[..|ks| - 1], ks[|ks| - 1];
      AscendingLast(ks);
      assert forall j :: j in p ==> j in ks;
      MoveBookingsFollowRule(d, s, to, p);
      var bs := MoveBookings(d, to, p);
      DuplicateSeenAlike(d, bs, s, to, p, k);
      assert k in ks;
      if RowFor(d, to, d.bookings[k].gymClass).Some? {
        BookingDropStep(d, bs, s, to, p, k);
      } else {
        BookingHandStep(d, bs, s, to, p, k);
      }
    }
  }

  /** Once every shadow booking is processed the rows are the merged ones. */
  lemma BookingsMovedAll(d: Db, bs: map<Id, Booking>, s: Id, to: Id)
    requires forall j :: j in d.bookings ==> j < d.nextId
    requires BookingsMovedFor(d, bs, s, to, BookingsOf(d, s))
    ensures bs == MergedBookings(d, s, to)
  {
    var m := MergedBookings(d, s, to);
    assert bs.Keys == m.Keys by {
      forall k | k in bs ensures k in m {
        if d.bookings[k].user == s {
          assert k in BookingsOf(d, s);
        }
      }
      forall k | k in m ensures k in bs {
        if d.bookings[k].user == s {
          assert k in BookingsOf(d, s);
        }
      }
    }
    forall k | k in bs ensures bs[k] == m[k] {
      if d.bookings[k].user == s {
        assert k in BookingsOf(d, s);
      }
    }
  }

  /** Under the uniqueness of (user, class) the bookings loop realises the rule, whatever the order. */
  lemma MoveBookingsMerged(d: Db, s: Id, to: Id)
    requires s != to && BookingPairsUnique(d.bookings) && forall j :: j in d.bookings ==> j < d.nextId
    ensures MoveBookings(d, to, BookingsOf(d, s)) == MergedBookings(d, s, to)
  {
    MoveBookingsFollowRule(d, s, to, BookingsOf(d, s));
    BookingsMovedAll(d, MoveBookings(d, to, BookingsOf(d, s)), s, to);
  }

  /** Shadow rule `k` handled by the rule: deleted when `to` had one on its slot, else handed over. */
  predicate ScheduleMoved(d: Db, ss: map<Id, FixedSchedule>, s: Id, to: Id, k: Id)
  {
    && k in d.schedules && d.schedules[k].user == s
    && (ScheduleFor(d, to, d.schedules[k].day, d.schedules[k].time).Some? ==> k !in ss)
    && (ScheduleFor(d, to, d.schedules[k].day, d.schedules[k].time).None? ==>
          k in ss && ss[k] == d.schedules[k].(user := to))
  }

  /** The schedules loop part way, as for the bookings. */
  predicate SchedulesMovedFor(d: Db, ss: map<Id, FixedSchedule>, s: Id, to: Id, done: seq<Id>)
  {
    && ss.Keys <= d.schedules.Keys
    && (forall k :: k in d.schedules && k !in done ==> k in ss && ss[k] == d.schedules[k])
    && (forall k :: k in done ==> ScheduleMoved(d, ss, s, to, k))
  }

  /** Part way through, a rule of `to` on the slot of an unprocessed shadow rule is seen exactly when one was there at the start. */
  lemma SlotSeenAlike(d: Db, ss: map<Id, FixedSchedule>, s: Id, to: Id, done: seq<Id>, k: Id)
    requires s != to && ScheduleSlotsUnique(d.schedules) && forall j :: j in d.schedules ==> j < d.nextId
    requires SchedulesMovedFor(d, ss, s, to, done)
    requires k in d.schedules && d.schedules[k].user == s && k !in done
    ensures var f := d.schedules[k];
      ScheduleFor(d.(schedules := ss), to, f.day, f.time).Some? <==> ScheduleFor(d, to, f.day, f.time).Some?
  {
    var f := d.schedules[k];
    var cur := d.(schedules := ss);
    var a := ScheduleFor(cur, to, f.day, f.time);
    if a.Some? {
      var j := a.value;
      assert ss[j] == d.schedules[j];
    }
    var o := ScheduleFor(d, to, f.day, f.time);
    if o.Some? {
      var j := o.value;
      assert j !in done && j in ss;
      assert j < cur.nextId;
    }
  }

  /** A shadow rule on a slot where `to` already has one is deleted. */
  lemma ScheduleDropStep(d: Db, ss: map<Id, FixedSchedule>, s: Id, to: Id, done: seq<Id>, k: Id)
    requires SchedulesMovedFor(d, ss, s, to, done)
    requires k in d.schedules && d.schedules[k].user == s && k !in done
    requires ScheduleFor(d, to, d.schedules[k].day, d.schedules[k].time).Some?
    ensures SchedulesMovedFor(d, ss - {k}, s, to, done + [k])
  {
    var ss' := ss - {k};
    forall j | j in d.schedules && j !in done + [k] ensures j in ss' && ss'[j] == d.schedules[j] {
      assert j !in done && j != k;
    }
    forall j | j in done + [k] ensures ScheduleMoved(d, ss', s, to, j) {
      if j != k {
        assert j in done;
      }
    }
  }

  /** Any other shadow rule is handed to `to`. */
  lemma ScheduleHandStep(d: Db, ss: map<Id, FixedSchedule>, s: Id, to: Id, done: seq<Id>, k: Id)
    requires SchedulesMovedFor(d, ss, s, to, done)
    requires k in d.schedules && d.schedules[k].user == s && k !in done
    requires ScheduleFor(d, to, d.schedules[k].day, d.schedules[k].time).None?
    ensures k in ss && SchedulesMovedFor(d, ss[k := ss[k].(user := to)], s, to, done + [k])
  {
    var ss' := ss[k := ss[k].(user := to)];
    forall j | j in d.schedules && j !in done + [k] ensures j in ss' && ss'[j] == d.schedules[j] {
      assert j !in done && j != k;
    }
    forall j | j in done + [k] ensures ScheduleMoved(d, ss', s, to, j) {
      if j != k {
        assert j in done;
      }
    }
  }

  /** Part way, the fold has handled the listed shadow rules by the rule and left every other one. */
  lemma {:induction false} MoveSchedulesFollowRule(d: Db, s: Id, to: Id, ks: seq<Id>)
    requires s != to && ScheduleSlotsUnique(d.schedules) && forall j :: j in d.schedules ==> j < d.nextId
    requires Ascending(ks) && forall k :: k in ks ==> k in d.schedules && d.schedules[k].user == s
    ensures SchedulesMovedFor(d, MoveSchedules(d, to, ks), s, to, ks)
  {
    if ks != [] {
      var p, k := ks[..|ks| - 1], ks[|ks| - 1];
      AscendingLast(ks);
      assert forall j :: j in p ==> j in ks;
      MoveSchedulesFollowRule(d, s, to, p);
      var ss := MoveSchedules(d, to, p);
      SlotSeenAlike(d, ss, s, to, p, k);
      assert k in ks;
      if ScheduleFor(d, to, d.schedules[k].day, d.schedules[k].time).Some? {
        ScheduleDropStep(d, ss, s, to, p, k);
      } else {
        ScheduleHandStep(d, ss, s, to, p, k);
      }
    }
  }

  /** Once every shadow rule is processed the rules are the merged ones. */
  lemma SchedulesMovedAll(d: Db, ss: map<Id, FixedSchedule>, s: Id, to: Id)
    requires forall j :: j in d.schedules ==> j < d.nextId
    requires SchedulesMovedFor(d, ss, s, to, SchedulesOf(d, s))
    ensures ss == MergedSchedules(d, s, to)
  {
    var m := MergedSchedules(d, s, to);
    assert ss.Keys == m.Keys by {
      forall k | k in ss ensures k in m {
        if d.schedules[k].user == s {
          assert k in SchedulesOf(d, s);
        }
      }
      forall k | k in m ensures k in ss {
        if d.schedules[k].user == s {
          assert k in SchedulesOf(d, s);
        }
      }
    }
    forall k | k in ss ensures ss[k] == m[k] {
      if d.schedules[k].user == s {
        assert k in SchedulesOf(d, s);
      }
    }
  }

  /** Under the uniqueness of (user, day, time) the schedules loop realises the rule, whatever the order. */
  lemma MoveSchedulesMerged(d: Db, s: Id, to: Id)
    requires s != to && ScheduleSlotsUnique(d.schedules) && forall j :: j in d.schedules ==> j < d.nextId
    ensures MoveSchedules(d, to, SchedulesOf(d, s)) == MergedSchedules(d, s, to)
  {
    MoveSchedulesFollowRule(d, s, to, SchedulesOf(d, s));
    SchedulesMovedAll(d, MoveSchedules(d, to, SchedulesOf(d, s)), s, to);
  }

  /** Under the integrity rules a merge moves the bookings and rules by the order-independent rules. */
  lemma MergeFollowsRules(d: Db, s: Id, me: Id, x: string)
    requires Valid(d) && s in d.users && me in d.users && s != me
    ensures Merge(d, s, me, x).bookings == MergedBookings(d, s, me)
    ensures Merge(d, s, me, x).schedules == MergedSchedules(d, s, me)
  {
    MoveBookingsMerged(d, s, me);
    MoveSchedulesMerged(d, s, me);
  }

  // ---------------------------------------------------------------------------
  // Properties

  /** The refusals, each exactly when the earlier checks pass and its own fails; none changes anything. */
  lemma UpdateProfileRejections(db: Db, me: Id, fullName: Option<string>, dni: Option<string>, phone: Option<string>)
    requires me in db.users
    ensures var (r, out) := UpdateProfile(db, me, fullName, dni, phone);
      var nameOk := fullName.None? || Strip(fullName.value) != "";
      && (out == Err(EmptyName) <==> !nameOk)
      && (out == Err(EmptyDni) <==> nameOk && dni.Some? && Strip(dni.value) == "")
      && (out == Err(DniNotNumeric) <==> nameOk && dni.Some? && Strip(dni.value) != "" && !IsDigits(Strip(dni.value)))
      && (out == Err(NothingToUpdate) <==> fullName.None? && phone.None? && dni.None?)
      && (out.Err? && out != Err(IntegrityError) ==> r == db)
  {
    if dni.Some? && Strip(dni.value) != "" {
      var d := db.(users := db.users[me := Edited(db.users[me], fullName, phone)]);
      ApplyDniOutcomes(db, d, me, Strip(dni.value));
    }
  }

  /** The DNI step fails only as taken or on a unique column, and a failure leaves the tables as they were. */
  lemma ApplyDniOutcomes(db: Db, d: Db, me: Id, x: string)
    requires me in db.users && d.users.Keys == db.users.Keys
    ensures var (r, out) := ApplyDni(db, d, me, x);
      && (out.Ok? || out == Err(DniTaken) || out == Err(IntegrityError))
      && (out == Err(DniTaken) <==> HolderOf(db, me, x).Some? && db.users[HolderOf(db, me, x).value].provider != Local)
      && (out.Err? ==> r == db)
  {
  }

  /** The DNI is refused as taken exactly when another account that is not a LOCAL one holds it. */
  lemma UpdateProfileDniTaken(db: Db, me: Id, fullName: Option<string>, dni: Option<string>, phone: Option<string>)
    requires me in db.users
    ensures var (r, out) := UpdateProfile(db, me, fullName, dni, phone);
      && (out == Err(DniTaken) <==>
            (fullName.None? || Strip(fullName.value) != "") && dni.Some? && IsDigits(Strip(dni.value))
            && HolderOf(db, me, Strip(dni.value)).Some?
            && db.users[HolderOf(db, me, Strip(dni.value)).value].provider != Local)
      && (out.Err? ==> r == db)
  {
    if dni.Some? && Strip(dni.value) != "" {
      var d := db.(users := db.users[me := Edited(db.users[me], fullName, phone)]);
      ApplyDniOutcomes(db, d, me, Strip(dni.value));
    }
  }

  /** Assigning a DNI nobody else holds creates no clash. */
  lemma AssignNoClash(db: Db, me: Id, u: User, x: string)
    requires UsersUnique(db.users) && me in db.users && forall k :: k in db.users ==> k < db.nextId
    requires HolderOf(db, me, x).None? && u.dni == Some(x)
    requires u.email == db.users[me].email && u.provider == db.users[me].provider
    requires u.socialId == db.users[me].socialId
    ensures !ClashesWith(db.users, u, Some(me))
  {
    forall k | k in db.users && Some(k) != Some(me) ensures !UsersClash(db.users[k], u) {
      assert !UsersClash(db.users[k], db.users[me]);
    }
  }

  /** After a merge the target clashes with nobody: the only other holder of its DNI was the shadow, now gone. */
  lemma MergeNoClash(d: Db, s: Id, me: Id, x: string)
    requires UsersUnique(d.users) && s in d.users && me in d.users && s != me && d.users[s].dni == Some(x)
    ensures !ClashesWith(Merge(d, s, me, x).users, Merge(d, s, me, x).users[me], Some(me))
  {
    var r := Merge(d, s, me, x);
    forall k | k in r.users && Some(k) != Some(me) ensures !UsersClash(r.users[k], r.users[me]) {
      assert k != s && r.users[k] == d.users[k];
      assert !UsersClash(d.users[k], d.users[me]);
      assert !UsersClash(d.users[k], d.users[s]);
    }
  }

  /** Under the integrity rules the DNI step never fails on a unique column. */
  lemma ApplyDniNoClash(db: Db, me: Id, e: User, x: string)
    requires Valid(db) && me in db.users
    requires e.email == db.users[me].email && e.dni == db.users[me].dni
    requires e.provider == db.users[me].provider && e.socialId == db.users[me].socialId
    ensures ApplyDni(db, db.(users := db.users[me := e]), me, x).1 != Err(IntegrityError)
  {
    var d := db.(users := db.users[me := e]);
    match HolderOf(db, me, x)
    case None =>
      var u := e.(dni := Some(x));
      AssignNoClash(db, me, u, x);
      ClashIgnoresSelf(db.users, me, u, u);
      assert d.users[me := u] == db.users[me := u];
    case Some(s) =>
      SameKeysNoClash(db.users, me, e);
      UpdateUserKeepsValid(db, me, e);
      MergeNoClash(d, s, me, x);
  }

  /** Under the integrity rules the commit never fails on a unique column. */
  lemma UpdateProfileNoClash(db: Db, me: Id, fullName: Option<string>, dni: Option<string>, phone: Option<string>)
    requires Valid(db) && me in db.users
    ensures UpdateProfile(db, me, fullName, dni, phone).1 != Err(IntegrityError)
  {
    var e := Edited(db.users[me], fullName, phone);
    if dni.None? {
      SameKeysNoClash(db.users, me, e);
      ClashIgnoresSelf(db.users, me, e, e);
    } else {
      ApplyDniNoClash(db, me, e, Strip(dni.value));
    }
  }

  /**
   * The booking transfer: rows of other users stay; a shadow row is deleted
   * when the target had a row of any status for its class, and otherwise
   * becomes the target's, unchanged in every other field; the shadow keeps none.
   */
  lemma MergedBookingsEffect(d: Db, s: Id, to: Id)
    requires s != to
    ensures var m := MergedBookings(d, s, to);
      && m.Keys <= d.bookings.Keys
      && (forall k :: k in d.bookings && d.bookings[k].user != s ==> k in m && m[k] == d.bookings[k])
      && (forall k :: k in d.bookings && d.bookings[k].user == s ==>
            (k in m <==> RowFor(d, to, d.bookings[k].gymClass).None?))
      && (forall k :: k in m && d.bookings[k].user == s ==> m[k] == d.bookings[k].(user := to))
      && (forall k :: k in m ==> m[k].user != s)
  {
  }

  /** The schedule transfer, by the same rule on (day, time). */
  lemma MergedSchedulesEffect(d: Db, s: Id, to: Id)
    requires s != to
    ensures var m := MergedSchedules(d, s, to);
      && m.Keys <= d.schedules.Keys
      && (forall k :: k in d.schedules && d.schedules[k].user != s ==> k in m && m[k] == d.schedules[k])
      && (forall k :: k in d.schedules && d.schedules[k].user == s ==>
            (k in m <==> ScheduleFor(d, to, d.schedules[k].day, d.schedules[k].time).None?))
      && (forall k :: k in m && d.schedules[k].user == s ==> m[k] == d.schedules[k].(user := to))
      && (forall k :: k in m ==> m[k].user != s)
  {
  }

  /**
   * A merge keeps every ledger entry, amount and expiry: the multiset of
   * amounts and the total are unchanged, the target's balance becomes the
   * sum of both, the shadow's is zero and nobody else's moves.
   */
  lemma MergeKeepsCredits(d: Db, s: Id, me: Id, dni: string, other: Id, now: int)
    requires s in d.users && me in d.users && s != me
    ensures var r := Merge(d, s, me, dni);
      && |r.credits| == |d.credits|
      && multiset(AmountsOf(r.credits)) == multiset(AmountsOf(d.credits))
      && TotalAmount(r.credits) == TotalAmount(d.credits)
      && Balance(r.credits, me, now) == Balance(d.credits, me, now) + Balance(d.credits, s, now)
      && Balance(r.credits, s, now) == 0
      && (other != s && other != me ==> Balance(r.credits, other, now) == Balance(d.credits, other, now))
  {
    ReassignKeepsAmounts(d.credits, s, me);
    ReassignBalances(d.credits, s, me, other, now);
  }

  /**
   * The users after a merge: the shadow is gone, the target holds the DNI,
   * is trial exactly when either was, and takes the shadow's certificate
   * only when it had none of its own; everyone else is as before.
   */
  lemma MergeUsers(d: Db, s: Id, me: Id, dni: string)
    requires s in d.users && me in d.users && s != me
    ensures var r := Merge(d, s, me, dni);
      var t := d.users[me];
      var sh := d.users[s];
      && r.users.Keys == d.users.Keys - {s}
      && r.users[me].dni == Some(dni)
      && (r.users[me].isTrial <==> t.isTrial || sh.isTrial)
      && (!Present(t.certificate) && Present(sh.certificate) ==> r.users[me].certificate == sh.certificate)
      && (Present(t.certificate) || !Present(sh.certificate) ==> r.users[me].certificate == t.certificate)
      && r.users[me].email == t.email && r.users[me].fullName == t.fullName && r.users[me].phone == t.phone
      && (forall k :: k in r.users && k != me ==> r.users[k] == d.users[k])
  {
  }

  /** A successful update with a DNI held by a LOCAL account is exactly the merge of that account. */
  lemma UpdateProfileMerges(db: Db, me: Id, fullName: Option<string>, dni: string, phone: Option<string>)
    requires Valid(db) && me in db.users
    requires fullName.None? || Strip(fullName.value) != ""
    requires IsDigits(Strip(dni))
    requires HolderOf(db, me, Strip(dni)).Some? && db.users[HolderOf(db, me, Strip(dni)).value].provider == Local
    ensures var d := db.(users := db.users[me := Edited(db.users[me], fullName, phone)]);
      UpdateProfile(db, me, fullName, Some(dni), phone) == (Merge(d, HolderOf(db, me, Strip(dni)).value, me, Strip(dni)), Ok(()))
  {
    UpdateProfileNoClash(db, me, fullName, Some(dni), phone);
  }

  /** A DNI nobody else holds is simply assigned, with the name and phone edits. */
  lemma UpdateProfileAssigns(db: Db, me: Id, fullName: Option<string>, dni: string, phone: Option<string>)
    requires Valid(db) && me in db.users
    requires fullName.None? || Strip(fullName.value) != ""
    requires IsDigits(Strip(dni)) && HolderOf(db, me, Strip(dni)).None?
    ensures var (r, out) := UpdateProfile(db, me, fullName, Some(dni), phone);
      && out.Ok?
      && r.users == db.users[me := Edited(db.users[me], fullName, phone).(dni := Some(Strip(dni)))]
      && r.bookings == db.bookings && r.credits == db.credits && r.schedules == db.schedules
  {
    UpdateProfileNoClash(db, me, fullName, Some(dni), phone);
  }

  // ---------------------------------------------------------------------------
  // Integrity

  /** Users after removing one and rewriting another that clashes with no remaining one stay unique. */
  lemma RewriteKeepsUnique(users: map<Id, User>, s: Id, me: Id, u: User)
    requires UsersUnique(users) && me in users && s != me
    requires !ClashesWith(users - {s}, u, Some(me))
    ensures UsersUnique((users - {s})[me := u])
  {
    var us := (users - {s})[me := u];
    forall i, j | i in us && j in us && i != j ensures !UsersClash(us[i], us[j]) {
      if i == me {
        assert Some(j) != Some(me) && j in users - {s} && !UsersClash((users - {s})[j], u);
        assert UsersClash(u, us[j]) <==> UsersClash(us[j], u);
      } else if j == me {
        assert Some(i) != Some(me) && i in users - {s};
      } else {
        assert us[i] == users[i] && us[j] == users[j];
      }
    }
  }

  /** The merged bookings keep the (user, class) pairs unique. */
  lemma MergedBookingsUnique(d: Db, s: Id, to: Id)
    requires s != to && BookingPairsUnique(d.bookings) && forall j :: j in d.bookings ==> j < d.nextId
    ensures BookingPairsUnique(MergedBookings(d, s, to))
  {
    var m := MergedBookings(d, s, to);
    forall i, j | i in m && j in m && i != j ensures m[i].user != m[j].user || m[i].gymClass != m[j].gymClass {
      assert i < d.nextId && j < d.nextId;
    }
  }

  /** The merged rules keep the (user, day, time) slots unique. */
  lemma MergedSchedulesUnique(d: Db, s: Id, to: Id)
    requires s != to && ScheduleSlotsUnique(d.schedules) && forall j :: j in d.schedules ==> j < d.nextId
    ensures ScheduleSlotsUnique(MergedSchedules(d, s, to))
  {
    var m := MergedSchedules(d, s, to);
    forall i, j | i in m && j in m && i != j
      ensures m[i].user != m[j].user || m[i].day != m[j].day || m[i].time != m[j].time
    {
      assert i < d.nextId && j < d.nextId;
    }
  }

  /** The merged bookings point at remaining users, given that only the shadow is removed. */
  lemma MergedBookingsRefs(d: Db, s: Id, me: Id, users: map<Id, User>)
    requires RefsExist(d) && s != me && me in users && forall k :: k in d.users && k != s ==> k in users
    ensures forall k :: k in MergedBookings(d, s, me) ==>
      MergedBookings(d, s, me)[k].user in users && MergedBookings(d, s, me)[k].gymClass in d.classes
  {
  }

  /** The merged rules point at remaining users. */
  lemma MergedSchedulesRefs(d: Db, s: Id, me: Id, users: map<Id, User>)
    requires RefsExist(d) && s != me && me in users && forall k :: k in d.users && k != s ==> k in users
    ensures forall k :: k in MergedSchedules(d, s, me) ==> MergedSchedules(d, s, me)[k].user in users
  {
  }

  /** The reassigned ledger points at remaining users. */
  lemma ReassignedRefs(d: Db, s: Id, me: Id, users: map<Id, User>)
    requires RefsExist(d) && s != me && me in users && forall k :: k in d.users && k != s ==> k in users
    ensures forall i :: 0 <= i < |Reassign(d.credits, s, me)| ==> Reassign(d.credits, s, me)[i].user in users
  {
    var r := Reassign(d.credits, s, me);
    forall i | 0 <= i < |r| ensures r[i].user in users {
      assert d.credits[i].user in d.users;
    }
  }

  /** The users after a merge stay unique. */
  lemma MergeUsersUnique(d: Db, s: Id, me: Id, x: string)
    requires UsersUnique(d.users) && s in d.users && me in d.users && s != me && d.users[s].dni == Some(x)
    ensures UsersUnique(Merge(d, s, me, x).users)
  {
    var r := Merge(d, s, me, x);
    var u := r.users[me];
    MergeNoClash(d, s, me, x);
    assert r.users == (d.users - {s})[me := u];
    ClashIgnoresSelf(d.users - {s}, me, u, u);
    RewriteKeepsUnique(d.users, s, me, u);
  }

  /** The merged bookings keep their statuses and stamps. */
  lemma MergedBookingsStamped(d: Db, s: Id, me: Id)
    requires Valid(d)
    ensures forall k :: k in MergedBookings(d, s, me) ==> StatusStamped(MergedBookings(d, s, me)[k])
  {
  }

  /** Every id after a merge is one the counter issued. */
  lemma MergeKeepsIds(d: Db, s: Id, me: Id, x: string)
    requires Valid(d) && s in d.users && me in d.users && s != me
    ensures IdsIssued(Merge(d, s, me, x))
  {
    var r := Merge(d, s, me, x);
    MergeFollowsRules(d, s, me, x);
    assert r.users.Keys <= d.users.Keys && r.bookings.Keys <= d.bookings.Keys && r.schedules.Keys <= d.schedules.Keys;
  }

  /** A merge of the holder of the DNI keeps every integrity rule. */
  lemma MergeKeepsValid(d: Db, s: Id, me: Id, x: string)
    requires Valid(d) && s in d.users && me in d.users && s != me && d.users[s].dni == Some(x)
    ensures Valid(Merge(d, s, me, x))
  {
    var r := Merge(d, s, me, x);
    MergeFollowsRules(d, s, me, x);
    MergedBookingsUnique(d, s, me);
    MergedSchedulesUnique(d, s, me);
    MergedBookingsRefs(d, s, me, r.users);
    MergedSchedulesRefs(d, s, me, r.users);
    ReassignedRefs(d, s, me, r.users);
    MergeUsersUnique(d, s, me, x);
    MergedBookingsStamped(d, s, me);
    MergeKeepsIds(d, s, me, x);
  }

  /** The DNI step keeps every integrity rule. */
  lemma ApplyDniKeepsValid(db: Db, me: Id, e: User, x: string)
    requires Valid(db) && me in db.users
    requires e.email == db.users[me].email && e.dni == db.users[me].dni
    requires e.provider == db.users[me].provider && e.socialId == db.users[me].socialId
    ensures Valid(ApplyDni(db, db.(users := db.users[me := e]), me, x).0)
  {
    var d := db.(users := db.users[me := e]);
    SameKeysNoClash(db.users, me, e);
    UpdateUserKeepsValid(db, me, e);
    match HolderOf(db, me, x)
    case None =>
      var u := e.(dni := Some(x));
      assert d.users[me := u] == db.users[me := u];
      ClashIgnoresSelf(db.users, me, u, u);
      if !ClashesWith(db.users, u, Some(me)) {
        UpdateUserKeepsValid(db, me, u);
      }
    case Some(s) =>
      if db.users[s].provider == Local {
        MergeKeepsValid(d, s, me, x);
      }
  }

  /** `update_profile` keeps every integrity rule. */
  lemma UpdateProfileKeepsValid(db: Db, me: Id, fullName: Option<string>, dni: Option<string>, phone: Option<string>)
    requires Valid(db) && me in db.users
    ensures Valid(UpdateProfile(db, me, fullName, dni, phone).0)
  {
    var e := Edited(db.users[me], fullName, phone);
    var d := db.(users := db.users[me := e]);
    var r := UpdateProfile(db, me, fullName, dni, phone).0;
    if r != db {
      if dni.None? {
        assert r == Committed(db, d, me).0;
        SameKeysNoClash(db.users, me, e);
        ClashIgnoresSelf(db.users, me, e, e);
        UpdateUserKeepsValid(db, me, e);
      } else {
        assert r == ApplyDni(db, d, me, Strip(dni.value)).0;
        ApplyDniKeepsValid(db, me, e, Strip(dni.value));
      }
    }
  }
}
