/**
 * The database as one value: the five tables this core touches, the set of
 * active instructor names, the settings table, and the counter that stands
 * in for fresh UUIDs. `Valid` collects the integrity rules the schema and
 * the endpoints keep; `Database` is the mutable session the endpoints
 * change in place.
 */
module Store {
  import opened Wrappers
  import opened Models
  import opened Utils
  import opened Calendar

  /** The error an endpoint raises; every raise before a commit leaves the database as it was. */
  datatype Error =
    | ClassInPast            // create_gym_class: start not in the future
    | ClassNotFound
    | InstructorNotFound     // update_gym_class: no active instructor of that name
    | UserNotFound
    | NameRequired           // shadow creation without a full name
    | UserDataMissing        // neither a user id nor a DNI
    | ClassFull
    | AlreadyBooked
    | ClassAlreadyCancelled
    | ScheduleExists
    | ScheduleNotFound
    | ScheduleAlreadyCancelled
    | BookingNotFound
    | BookingNotConfirmed
    | DniExists              // create_user: DNI already registered
    | IntegrityError         // a unique constraint of the users table
    | TrialAccount
    | ReservationsPaused
    | ClassPast              // book_class: class already started
    | ClassStarted           // cancel_booking: class started or in progress
    | NoCredits
    | EmptyName
    | EmptyDni
    | DniNotNumeric
    | DniTaken               // the DNI belongs to another real account
    | NothingToUpdate

  datatype Result<T> = Ok(value: T) | Err(error: Error)

  datatype Db = Db(
    users: map<Id, User>,
    classes: map<Id, GymClass>,
    bookings: map<Id, Booking>,
    schedules: map<Id, FixedSchedule>,
    credits: seq<Credit>,
    instructors: set<string>,
    settings: Settings,
    nextId: nat)

  /** Every stored id, class ids and recurrence groups included, was handed out by the counter. */
  predicate IdsIssued(db: Db)
  {
    && (forall k :: k in db.users ==> k < db.nextId)
    && (forall k :: k in db.classes ==> k < db.nextId)
    && (forall k :: k in db.bookings ==> k < db.nextId)
    && (forall k :: k in db.schedules ==> k < db.nextId)
    && (forall k :: k in db.classes && db.classes[k].recurrenceGroup.Some? ==>
          db.classes[k].recurrenceGroup.value < db.nextId)
  }

  /** Foreign keys: bookings, rules and ledger entries point at existing rows. */
  predicate RefsExist(db: Db)
  {
    && (forall k :: k in db.bookings ==> db.bookings[k].user in db.users && db.bookings[k].gymClass in db.classes)
    && (forall k :: k in db.schedules ==> db.schedules[k].user in db.users)
    && (forall i :: 0 <= i < |db.credits| ==> db.credits[i].user in db.users)
  }

  predicate Valid(db: Db)
  {
    && IdsIssued(db)
    && RefsExist(db)
    && BookingPairsUnique(db.bookings)
    && ScheduleSlotsUnique(db.schedules)
    && UsersUnique(db.users)
    && (forall k :: k in db.bookings ==> StatusStamped(db.bookings[k]))
  }

  predicate Ascending(s: seq<Id>)
  {
    forall i, j :: 0 <= i < j < |s| ==> s[i] < s[j]
  }

  /** A `select ... where p` over ids below `n`, in id order. */
  function Select(n: nat, p: Id -> bool): (r: seq<Id>)
    ensures forall k: Id :: k in r <==> k < n && p(k)
    ensures Ascending(r)
  {
    if n == 0 then []
    else
      var s := Select(n - 1, p);
      assert forall i :: 0 <= i < |s| ==> s[i] < n - 1 by {
        forall i | 0 <= i < |s| ensures s[i] < n - 1 {
          assert s[i] in s;
        }
      }
      s + (if p(n - 1) then [n - 1] else [])
  }

  /** `select ... where p limit 1` over ids below `n`: the smallest matching id. */
  function First(n: nat, p: Id -> bool): (r: Option<Id>)
    ensures r.Some? ==> r.value < n && p(r.value)
    ensures r.None? ==> forall k: Id :: k < n ==> !p(k)
  {
    if n == 0 then None
    else
      match First(n - 1, p)
      case Some(k) => Some(k)
      case None => if p(n - 1) then Some(n - 1) else None
  }

  /** The CONFIRMED bookings on class `c`. */
  function ConfirmedOn(db: Db, c: Id): (r: seq<Id>)
    ensures forall k :: k in r <==>
      (k < db.nextId && k in db.bookings && db.bookings[k].gymClass == c && db.bookings[k].status == Confirmed)
    ensures Ascending(r)
  {
    Select(db.nextId, k => k in db.bookings && db.bookings[k].gymClass == c && db.bookings[k].status == Confirmed)
  }

  /** The CONFIRMED bookings on class `c`, as a set of ids. */
  function ConfirmedSet(bs: map<Id, Booking>, c: Id): (r: set<Id>)
    ensures forall k :: k in r <==> k in bs && bs[k].gymClass == c && bs[k].status == Confirmed
  {
    set k | k in bs && bs[k].gymClass == c && bs[k].status == Confirmed
  }

  /** `count(Booking.id)` where the class is `c` and the status CONFIRMED. */
  function ConfirmedCount(bookings: map<Id, Booking>, c: Id): nat
  {
    |ConfirmedSet(bookings, c)|
  }

  /** The row, of any status, for (user, class). */
  function RowFor(db: Db, user: Id, c: Id): (r: Option<Id>)
    ensures r.Some? ==> r.value in db.bookings && db.bookings[r.value].user == user && db.bookings[r.value].gymClass == c
    ensures r.None? ==> forall k :: k in db.bookings && k < db.nextId ==>
      (db.bookings[k].user != user || db.bookings[k].gymClass != c)
  {
    var p := (k: Id) => k in db.bookings && db.bookings[k].user == user && db.bookings[k].gymClass == c;
    assert forall k: Id :: p(k) == (k in db.bookings && db.bookings[k].user == user && db.bookings[k].gymClass == c);
    First(db.nextId, p)
  }

  /** The rule, active or cancelled, for (user, day, time). */
  function ScheduleFor(db: Db, user: Id, day: DayOfWeek, time: TimeOfDay): (r: Option<Id>)
    ensures r.Some? ==>
      (&& r.value in db.schedules && db.schedules[r.value].user == user
       && db.schedules[r.value].day == day && db.schedules[r.value].time == time)
    ensures r.None? ==> forall k :: k in db.schedules && k < db.nextId ==>
      (db.schedules[k].user != user || db.schedules[k].day != day || db.schedules[k].time != time)
  {
    var p := (k: Id) => k in db.schedules && db.schedules[k].user == user &&
      db.schedules[k].day == day && db.schedules[k].time == time;
    assert forall k: Id :: p(k) == (k in db.schedules && db.schedules[k].user == user && db.schedules[k].day == day && db.schedules[k].time == time);
    First(db.nextId, p)
  }

  /** The user holding DNI `dni`. */
  function UserByDni(db: Db, dni: string): (r: Option<Id>)
    ensures r.Some? ==> r.value in db.users && db.users[r.value].dni == Some(dni)
    ensures r.None? ==> forall k :: k in db.users && k < db.nextId ==> db.users[k].dni != Some(dni)
  {
    var p := (k: Id) => k in db.users && db.users[k].dni == Some(dni);
    assert forall k: Id :: p(k) == (k in db.users && db.users[k].dni == Some(dni));
    First(db.nextId, p)
  }

  /** The user with e-mail `email`. */
  function UserByEmail(db: Db, email: string): (r: Option<Id>)
    ensures r.Some? ==> r.value in db.users && db.users[r.value].email == email
    ensures r.None? ==> forall k :: k in db.users && k < db.nextId ==> db.users[k].email != email
  {
    var p := (k: Id) => k in db.users && db.users[k].email == email;
    assert forall k: Id :: p(k) == (k in db.users && db.users[k].email == email);
    First(db.nextId, p)
  }

  /** Some stored user other than `except` clashes with `u` on a unique column. */
  predicate ClashesWith(users: map<Id, User>, u: User, except: Option<Id>)
  {
    exists k :: k in users && Some(k) != except && UsersClash(users[k], u)
  }

  /** The CONFIRMED bookings of `user` whose class starts after `now` (the join with the class table). */
  function FutureConfirmedOf(db: Db, user: Id, now: int): (r: seq<Id>)
    ensures forall k :: k in r <==>
      (&& k < db.nextId && k in db.bookings && db.bookings[k].user == user
       && db.bookings[k].status == Confirmed && db.bookings[k].gymClass in db.classes
       && db.classes[db.bookings[k].gymClass].startTime > now)
    ensures Ascending(r)
  {
    Select(db.nextId, k => k in db.bookings && db.bookings[k].user == user && db.bookings[k].status == Confirmed &&
      db.bookings[k].gymClass in db.classes && db.classes[db.bookings[k].gymClass].startTime > now)
  }

  /** Whether a user clashes with the others does not depend on the record stored under its own id. */
  lemma ClashIgnoresSelf(users: map<Id, User>, me: Id, u: User, v: User)
    ensures ClashesWith(users[me := v], u, Some(me)) == ClashesWith(users, u, Some(me))
  {
    if ClashesWith(users[me := v], u, Some(me)) {
      var k :| k in users[me := v] && Some(k) != Some(me) && UsersClash(users[me := v][k], u);
      assert k in users && UsersClash(users[k], u);
    }
    if ClashesWith(users, u, Some(me)) {
      var k :| k in users && Some(k) != Some(me) && UsersClash(users[k], u);
      assert k in users[me := v] && UsersClash(users[me := v][k], u);
    }
  }

  /** Changing fields outside the unique columns cannot create a clash. */
  lemma SameKeysNoClash(users: map<Id, User>, k: Id, u: User)
    requires UsersUnique(users) && k in users
    requires u.email == users[k].email && u.dni == users[k].dni
    requires u.provider == users[k].provider && u.socialId == users[k].socialId
    ensures !ClashesWith(users, u, Some(k))
  {
    forall j | j in users && Some(j) != Some(k) ensures !UsersClash(users[j], u) {
      assert !UsersClash(users[j], users[k]);
    }
  }

  /** Rewriting a user that clashes with no other keeps every integrity rule. */
  lemma UpdateUserKeepsValid(db: Db, k: Id, u: User)
    requires Valid(db) && k in db.users && !ClashesWith(db.users, u, Some(k))
    ensures Valid(db.(users := db.users[k := u]))
  {
    var us := db.users[k := u];
    forall i, j | i in us && j in us && i != j ensures !UsersClash(us[i], us[j]) {
      if i == k {
        assert Some(j) != Some(k) && !UsersClash(db.users[j], u);
        assert UsersClash(u, us[j]) <==> UsersClash(us[j], u);
      } else if j == k {
        assert Some(i) != Some(k);
      }
    }
    var d := db.(users := us);
    assert IdsIssued(d);
    assert RefsExist(d);
  }

  /** The mutable session over the database. */
  class Database {
    var users: map<Id, User>
    var classes: map<Id, GymClass>
    var bookings: map<Id, Booking>
    var schedules: map<Id, FixedSchedule>
    var credits: seq<Credit>
    var instructors: set<string>
    var settings: Settings
    var nextId: nat

    /** The tables as one value. */
    function Snapshot(): Db
      reads this
    {
      Db(users, classes, bookings, schedules, credits, instructors, settings, nextId)
    }

    /** Commit: the tables become those of `d`. */
    method Commit(d: Db)
      modifies this
      ensures Snapshot() == d
    {
      users, classes, bookings, schedules := d.users, d.classes, d.bookings, d.schedules;
      credits, instructors, settings, nextId := d.credits, d.instructors, d.settings, d.nextId;
    }

    constructor (initial: Db)
      ensures Snapshot() == initial
    {
      users, classes, bookings, schedules := initial.users, initial.classes, initial.bookings, initial.schedules;
      credits, instructors, settings, nextId := initial.credits, initial.instructors, initial.settings, initial.nextId;
    }
  }
}
