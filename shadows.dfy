/**
 * Resolution of the user an administrator acts for: an existing user by id,
 * an existing user by DNI (or, when booking, by the placeholder e-mail), or
 * a new shadow (LOCAL) user created on the spot. The shadow is committed at
 * once, before the caller's own checks.
 */
module Shadows {
  import opened Wrappers
  import opened Models
  import opened Text
  import opened Store

  const PlaceholderDomain: string := "@local.placeholder"
  const LocalPrefix: string := "local_"

  /** The internal e-mail of a shadow user. */
  function PlaceholderEmail(dni: string): string
  {
    dni + PlaceholderDomain
  }

  /** The social id of a shadow user, which keeps (provider, social_id) unique. */
  function LocalSocialId(dni: string): string
  {
    LocalPrefix + dni
  }

  /** The shadow user the administrator endpoints create. */
  function Shadow(dni: string, fullName: string, isTrial: bool): User
  {
    ShadowUser(PlaceholderEmail(dni), fullName, dni, LocalSocialId(dni), isTrial)
  }

  /** Insert and commit a shadow user; a clash on a unique column of the users table is rolled back. */
  function AddShadow(db: Db, dni: string, fullName: string, isTrial: bool): (r: (Db, Result<Id>))
    ensures r.1.Err? ==> r.0 == db && r.1.error == IntegrityError
    ensures r.1.Ok? ==> r.1.value == db.nextId && r.0 == db.(users := db.users[db.nextId := Shadow(dni, fullName, isTrial)],
                                                               nextId := db.nextId + 1)
  {
    var u := Shadow(dni, fullName, isTrial);
    if ClashesWith(db.users, u, None) then (db, Err(IntegrityError))
    else (db.(users := db.users[db.nextId := u], nextId := db.nextId + 1), Ok(db.nextId))
  }

  /** No name given: `None` or the empty string. */
  predicate Blank(s: Option<string>)
  {
    s.None? || s.value == ""
  }

  /** The resolution of `manual_book`: the DNI is stripped, and the placeholder e-mail is tried too. */
  function ResolveForBooking(db: Db, userId: Option<Id>, dni: Option<string>, fullName: Option<string>, isTrial: bool)
    : (Db, Result<Id>)
  {
    if userId.Some? then
      (db, if userId.value in db.users then Ok(userId.value) else Err(UserNotFound))
    else if dni.Some? && dni.value != "" then
      var d := Strip(dni.value);
      match UserByDni(db, d)
      case Some(k) => (db, Ok(k))
      case None =>
        match UserByEmail(db, PlaceholderEmail(d))
        case Some(k) => (db, Ok(k))
        case None => if Blank(fullName) then (db, Err(NameRequired)) else AddShadow(db, d, fullName.value, isTrial)
    else (db, Err(UserDataMissing))
  }

  /** The resolution of `add_fixed_schedule`: the DNI as given, no e-mail fallback, never a trial account. */
  function ResolveForSchedule(db: Db, userId: Option<Id>, dni: Option<string>, fullName: Option<string>)
    : (Db, Result<Id>)
  {
    if userId.Some? then
      (db, if userId.value in db.users then Ok(userId.value) else Err(UserNotFound))
    else if dni.Some? && dni.value != "" then
      match UserByDni(db, dni.value)
      case Some(k) => (db, Ok(k))
      case None => if Blank(fullName) then (db, Err(NameRequired)) else AddShadow(db, dni.value, fullName.value, false)
    else (db, Err(UserDataMissing))
  }

  /** The only change a resolution can make is the committed shadow; a failed one changes nothing. */
  predicate ResolvedFrom(db: Db, r: (Db, Result<Id>))
  {
    && (r.1.Err? ==> r.0 == db)
    && (r.1.Ok? ==> r.1.value in r.0.users)
    && (|| r.0 == db
        || (&& r.1 == Ok(db.nextId)
            && r.0 == db.(users := db.users[db.nextId := r.0.users[db.nextId]], nextId := db.nextId + 1)
            && r.0.users[db.nextId].provider == Local))
  }

  /** A shadow insertion is a resolution step. */
  lemma AddShadowResolved(db: Db, dni: string, fullName: string, isTrial: bool)
    ensures ResolvedFrom(db, AddShadow(db, dni, fullName, isTrial))
  {
  }

  /** The booking resolution yields an existing user, and changes the tables at most by one committed shadow. */
  lemma ResolveForBookingShape(db: Db, userId: Option<Id>, dni: Option<string>, fullName: Option<string>, isTrial: bool)
    ensures ResolvedFrom(db, ResolveForBooking(db, userId, dni, fullName, isTrial))
  {
    if userId.None? && dni.Some? && dni.value != "" && !Blank(fullName) {
      AddShadowResolved(db, Strip(dni.value), fullName.value, isTrial);
    }
  }

  /** The same for the resolution of `add_fixed_schedule`. */
  lemma ResolveForScheduleShape(db: Db, userId: Option<Id>, dni: Option<string>, fullName: Option<string>)
    ensures ResolvedFrom(db, ResolveForSchedule(db, userId, dni, fullName))
  {
    if userId.None? && dni.Some? && dni.value != "" && !Blank(fullName) {
      AddShadowResolved(db, dni.value, fullName.value, false);
    }
  }

  /** A user already holding the DNI is reused and nothing is created. */
  lemma ResolveReusesDni(db: Db, dni: string, fullName: Option<string>, isTrial: bool, k: Id)
    requires UsersUnique(db.users)
    requires k in db.users && db.users[k].dni == Some(dni) && dni != "" && Trimmed(dni)
    requires forall j :: j in db.users ==> j < db.nextId
    ensures ResolveForBooking(db, None, Some(dni), fullName, isTrial) == (db, Ok(k))
    ensures ResolveForSchedule(db, None, Some(dni), fullName) == (db, Ok(k))
  {
    StripTrimmed(dni);
    var found := UserByDni(db, dni);
    assert found.Some? by {
      assert k < db.nextId;
    }
    if found.value != k {
      assert UsersClash(db.users[found.value], db.users[k]);
    }
  }

  /** Without a match and with a name, a fresh LOCAL user with the placeholder e-mail and social id is committed. */
  lemma ResolveCreatesShadow(db: Db, dni: string, fullName: string, isTrial: bool)
    requires dni != "" && fullName != ""
    requires UserByDni(db, Strip(dni)).None? && UserByEmail(db, PlaceholderEmail(Strip(dni))).None?
    requires !ClashesWith(db.users, Shadow(Strip(dni), fullName, isTrial), None)
    ensures var r := ResolveForBooking(db, None, Some(dni), Some(fullName), isTrial);
      && r.1 == Ok(db.nextId)
      && r.0.users == db.users[db.nextId := Shadow(Strip(dni), fullName, isTrial)]
      && r.0.users[db.nextId].email == Strip(dni) + "@local.placeholder"
      && r.0.users[db.nextId].socialId == Some("local_" + Strip(dni))
      && r.0.users[db.nextId].provider == Local
      && r.0.users[db.nextId].isTrial == isTrial
      && r.0.bookings == db.bookings && r.0.credits == db.credits && r.0.classes == db.classes
  {
  }

  /** Clashing is symmetric. */
  lemma ClashSymmetric(a: User, b: User)
    ensures UsersClash(a, b) <==> UsersClash(b, a)
  {
  }

  /** A committed shadow keeps every integrity rule. */
  lemma AddShadowKeepsValid(db: Db, dni: string, fullName: string, isTrial: bool)
    requires Valid(db)
    ensures Valid(AddShadow(db, dni, fullName, isTrial).0)
  {
    var u := Shadow(dni, fullName, isTrial);
    if !ClashesWith(db.users, u, None) {
      var d := AddShadow(db, dni, fullName, isTrial).0;
      assert d == db.(users := db.users[db.nextId := u], nextId := db.nextId + 1);
      ShadowKeepsUnique(db.users, db.nextId, u);
      assert IdsIssued(d);
      assert RefsExist(d);
    }
  }

  /** The booking resolution keeps every integrity rule. */
  lemma ResolveForBookingKeepsValid(db: Db, userId: Option<Id>, dni: Option<string>, fullName: Option<string>, isTrial: bool)
    requires Valid(db)
    ensures Valid(ResolveForBooking(db, userId, dni, fullName, isTrial).0)
  {
    if userId.None? && dni.Some? && dni.value != "" && !Blank(fullName) {
      AddShadowKeepsValid(db, Strip(dni.value), fullName.value, isTrial);
    }
  }

  /** The schedule resolution keeps every integrity rule. */
  lemma ResolveForScheduleKeepsValid(db: Db, userId: Option<Id>, dni: Option<string>, fullName: Option<string>)
    requires Valid(db)
    ensures Valid(ResolveForSchedule(db, userId, dni, fullName).0)
  {
    if userId.None? && dni.Some? && dni.value != "" && !Blank(fullName) {
      AddShadowKeepsValid(db, dni.value, fullName.value, false);
    }
  }

  /** A new user under a fresh id that clashes with no stored one keeps the users table unique. */
  lemma ShadowKeepsUnique(users: map<Id, User>, k: Id, u: User)
    requires UsersUnique(users) && k !in users && !ClashesWith(users, u, None)
    ensures UsersUnique(users[k := u])
  {
    var us := users[k := u];
    forall i, j | i in us && j in us && i != j ensures !UsersClash(us[i], us[j]) {
      if i == k {
        ClashSymmetric(us[j], u);
      } else if j != k {
        assert i in users && j in users;
      }
    }
  }
}
