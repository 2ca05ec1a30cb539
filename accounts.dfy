/**
 * The administrator's account endpoints: `create_user`, which registers a
 * shadow (LOCAL) user for a DNI nobody holds, and `add_user_credits`,
 * which appends one signed entry of any amount to the ledger.
 */
module Accounts {
  import opened Wrappers
  import opened Models
  import opened Ledger
  import opened Store
  import opened Effects
  import opened Shadows

  /** `create_user`: the DNI is taken as given (no stripping); a holder refuses it. */
  function CreateUser(db: Db, fullName: string, dni: string, isTrial: bool): (Db, Result<Id>)
  {
    if UserByDni(db, dni).Some? then (db, Err(DniExists)) else AddShadow(db, dni, fullName, isTrial)
  }

  /** `add_user_credits`: one entry for the user, positive or negative, with its optional expiry. */
  function AddUserCredits(db: Db, u: Id, amount: int, expiresAt: Option<int>): (Db, Result<int>)
  {
    if u !in db.users then (db, Err(UserNotFound))
    else (db.(credits := db.credits + [Credit(u, amount, expiresAt)]), Ok(amount))
  }

  /**
   * `create_user` refuses exactly a DNI some user holds; otherwise it adds
   * one LOCAL user under a fresh id with the placeholder e-mail and social
   * id, no administrator rights, and nothing else changes.
   */
  lemma CreateUserEffect(db: Db, fullName: string, dni: string, isTrial: bool)
    requires forall k :: k in db.users ==> k < db.nextId
    ensures var (r, out) := CreateUser(db, fullName, dni, isTrial);
      && (out == Err(DniExists) <==> exists k :: k in db.users && db.users[k].dni == Some(dni))
      && (out.Err? ==> r == db)
      && (out.Ok? ==>
            && out.value == db.nextId && out.value !in db.users
            && r.users == db.users[out.value := Shadow(dni, fullName, isTrial)]
            && r.users[out.value].provider == Local
            && r.users[out.value].email == dni + "@local.placeholder"
            && r.users[out.value].socialId == Some("local_" + dni)
            && r.users[out.value].dni == Some(dni) && r.users[out.value].fullName == Some(fullName)
            && r.users[out.value].isTrial == isTrial && !r.users[out.value].isAdmin
            && r.bookings == db.bookings && r.credits == db.credits && r.classes == db.classes
            && r.schedules == db.schedules)
  {
    if exists k :: k in db.users && db.users[k].dni == Some(dni) {
      var k :| k in db.users && db.users[k].dni == Some(dni);
      assert k < db.nextId;
    }
  }

  /** `create_user` keeps every integrity rule. */
  lemma CreateUserKeepsValid(db: Db, fullName: string, dni: string, isTrial: bool)
    requires Valid(db)
    ensures Valid(CreateUser(db, fullName, dni, isTrial).0)
  {
    if UserByDni(db, dni).None? {
      AddShadowKeepsValid(db, dni, fullName, isTrial);
    }
  }

  /**
   * `add_user_credits` only appends: the old ledger is a prefix of the new
   * one, exactly one entry is added, and the user's balance moves by the
   * amount when the entry counts (a debit, or a credit not yet expired) and
   * not at all otherwise; nobody else's balance moves.
   */
  lemma AddUserCreditsEffect(db: Db, u: Id, amount: int, expiresAt: Option<int>, other: Id, now: int)
    ensures var (r, out) := AddUserCredits(db, u, amount, expiresAt);
      && (out == Err(UserNotFound) <==> u !in db.users)
      && (out.Err? ==> r == db)
      && (out.Ok? ==>
            && out.value == amount
            && db.credits <= r.credits && |r.credits| == |db.credits| + 1
            && r.credits[|db.credits|] == Credit(u, amount, expiresAt)
            && Balance(r.credits, u, now) ==
                 Balance(db.credits, u, now) +
                   (if amount < 0 || (amount > 0 && (expiresAt.None? || expiresAt.value > now)) then amount else 0)
            && (other != u ==> Balance(r.credits, other, now) == Balance(db.credits, other, now))
            && r.users == db.users && r.bookings == db.bookings && r.classes == db.classes)
  {
    BalanceAppendOne(db.credits, Credit(u, amount, expiresAt), u, now);
    BalanceAppendOne(db.credits, Credit(u, amount, expiresAt), other, now);
  }

  /** `add_user_credits` keeps every integrity rule. */
  lemma AddUserCreditsKeepsValid(db: Db, u: Id, amount: int, expiresAt: Option<int>)
    requires Valid(db)
    ensures Valid(AddUserCredits(db, u, amount, expiresAt).0)
  {
    if u in db.users {
      AppendCreditsKeepValid(db, [Credit(u, amount, expiresAt)]);
    }
  }
}
