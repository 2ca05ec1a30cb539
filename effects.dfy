/**
 * The row-level effects several endpoints share: inserting a booking,
 * cancelling every booking of a query result, and the +1 refunds that go
 * with them, each with the facts about the integrity rules and the ledger
 * that the endpoint proofs use.
 */
module Effects {
  import opened Wrappers
  import opened Models
  import opened Ledger
  import opened Store

  /** Selections under predicates that agree below `n` are the same list. */
  lemma {:induction false} SelectSame(n: nat, p1: Id -> bool, p2: Id -> bool)
    requires forall k: Id :: k < n ==> p1(k) == p2(k)
    ensures Select(n, p1) == Select(n, p2)
  {
    if n > 0 {
      SelectSame(n - 1, p1, p2);
    }
  }

  /** Every booking whose id is listed in `q` is cancelled at `now`; the others are left as they were. */
  function CancelAll(bs: map<Id, Booking>, q: seq<Id>, now: int): (r: map<Id, Booking>)
    ensures r.Keys == bs.Keys
    ensures forall k :: k in bs ==> r[k] == if k in q then Cancel(bs[k], now) else bs[k]
  {
    if q == [] then bs
    else
      var r' := CancelAll(bs, q[..|q| - 1], now);
      var k := q[|q| - 1];
      assert forall j :: j in q <==> j in q[..|q| - 1] || j == k;
      if k in r' then r'[k := Cancel(r'[k], now)] else r'
  }

  /** One more loop step of a bulk cancellation. */
  lemma CancelAllStep(bs: map<Id, Booking>, q: seq<Id>, j: nat, now: int)
    requires j < |q| && q[j] in bs
    ensures q[j] in CancelAll(bs, q[..j], now)
    ensures CancelAll(bs, q[..j + 1], now) ==
      CancelAll(bs, q[..j], now)[q[j] := Cancel(CancelAll(bs, q[..j], now)[q[j]], now)]
    ensures CancelAll(bs, q[..j], now)[q[j]].user == bs[q[j]].user
  {
    assert q[..j + 1][..j] == q[..j];
  }

  /** One more loop step of a refund list appended to a ledger. */
  lemma RefundsStep(cs: seq<Credit>, bs: map<Id, Booking>, q: seq<Id>, j: nat)
    requires j < |q| && forall k :: k in q ==> k in bs
    ensures forall k :: k in q[..j] ==> k in bs
    ensures cs + Refunds(BookingOwners(bs, q[..j + 1])) == cs + Refunds(BookingOwners(bs, q[..j])) + [NewCredit(bs[q[j]].user, 1)]
  {
    assert q[..j + 1][..j] == q[..j];
    assert forall k :: k in q[..j + 1] ==> k in q;
    var us := BookingOwners(bs, q[..j]);
    var u := bs[q[j]].user;
    assert BookingOwners(bs, q[..j + 1]) == us + [u];
    assert (us + [u])[..|us|] == us;
    assert Refunds(us + [u]) == Refunds(us) + [NewCredit(u, 1)];
  }

  /** One more refund at the end of a refund list. */
  lemma RefundsSnoc(cs: seq<Credit>, us: seq<Id>, u: Id)
    ensures cs + Refunds(us + [u]) == cs + Refunds(us) + [NewCredit(u, 1)]
  {
    assert (us + [u])[..|us|] == us;
  }

  /** One +1 entry without expiry for each listed user, in order. */
  function Refunds(us: seq<Id>): (r: seq<Credit>)
    ensures |r| == |us|
    ensures forall i :: 0 <= i < |us| ==> r[i] == NewCredit(us[i], 1)
  {
    if us == [] then [] else Refunds(us[..|us| - 1]) + [NewCredit(us[|us| - 1], 1)]
  }

  /** The owners of the listed bookings, in order. */
  function BookingOwners(bs: map<Id, Booking>, q: seq<Id>): (r: seq<Id>)
    requires forall k :: k in q ==> k in bs
    ensures |r| == |q|
    ensures forall i :: 0 <= i < |q| ==> r[i] == bs[q[i]].user
  {
    if q == [] then [] else BookingOwners(bs, q[..|q| - 1]) + [bs[q[|q| - 1]].user]
  }

  /** Refunds raise each user's balance by the number of times the user is listed. */
  lemma {:induction false} BalanceAfterRefunds(cs: seq<Credit>, us: seq<Id>, user: Id, now: int)
    ensures Balance(cs + Refunds(us), user, now) == Balance(cs, user, now) + multiset(us)[user]
  {
    if us == [] {
      assert cs + Refunds(us) == cs;
    } else {
      var us' := us[..|us| - 1];
      BalanceAfterRefunds(cs, us', user, now);
      assert cs + Refunds(us) == (cs + Refunds(us')) + [NewCredit(us[|us| - 1], 1)];
      RefundRaisesByOne(cs + Refunds(us'), us[|us| - 1], user, now);
      assert us == us' + [us[|us| - 1]];
      assert multiset(us) == multiset(us') + multiset{us[|us| - 1]};
    }
  }

  /** A list that names only `user` names it once per entry. */
  lemma {:induction false} OnlyOwner(us: seq<Id>, user: Id)
    requires forall i :: 0 <= i < |us| ==> us[i] == user
    ensures multiset(us)[user] == |us|
  {
    if us != [] {
      var us' := us[..|us| - 1];
      OnlyOwner(us', user);
      assert us == us' + [us[|us| - 1]];
      assert multiset(us) == multiset(us') + multiset{us[|us| - 1]};
    }
  }

  /** Cancelling listed bookings keeps every integrity rule. */
  lemma CancelAllKeepsValid(db: Db, q: seq<Id>, now: int)
    requires Valid(db)
    ensures Valid(db.(bookings := CancelAll(db.bookings, q, now)))
  {
    CancelAllRelabels(db.bookings, q, now);
    RelabelKeepsValid(db, CancelAll(db.bookings, q, now));
  }

  /** A bulk cancellation keeps each booking's user and class, and the status stamps. */
  lemma CancelAllRelabels(bs: map<Id, Booking>, q: seq<Id>, now: int)
    requires forall k :: k in bs ==> StatusStamped(bs[k])
    ensures forall k :: k in CancelAll(bs, q, now) ==>
      && CancelAll(bs, q, now)[k].user == bs[k].user && CancelAll(bs, q, now)[k].gymClass == bs[k].gymClass
      && StatusStamped(CancelAll(bs, q, now)[k])
  {
  }

  /** Rewriting bookings in place, keeping each one's user and class, keeps every integrity rule. */
  lemma RelabelKeepsValid(db: Db, bs: map<Id, Booking>)
    requires Valid(db)
    requires bs.Keys == db.bookings.Keys
    requires forall k :: k in bs ==> bs[k].user == db.bookings[k].user && bs[k].gymClass == db.bookings[k].gymClass
    requires forall k :: k in bs ==> StatusStamped(bs[k])
    ensures Valid(db.(bookings := bs))
  {
    var d := db.(bookings := bs);
    assert IdsIssued(d);
    assert RefsExist(d);
    assert BookingPairsUnique(d.bookings) by {
      forall i, j | i in bs && j in bs && i != j
        ensures bs[i].user != bs[j].user || bs[i].gymClass != bs[j].gymClass
      {
        assert i in db.bookings && j in db.bookings;
      }
    }
  }

  /** Appending entries of existing users keeps every integrity rule. */
  lemma AppendCreditsKeepValid(db: Db, extra: seq<Credit>)
    requires Valid(db)
    requires forall c :: c in extra ==> c.user in db.users
    ensures Valid(db.(credits := db.credits + extra))
  {
    var d := db.(credits := db.credits + extra);
    forall i | 0 <= i < |d.credits| ensures d.credits[i].user in d.users {
      if i < |db.credits| {
        assert d.credits[i] == db.credits[i];
      } else {
        assert d.credits[i] == extra[i - |db.credits|];
      }
    }
    assert RefsExist(d);
  }

  /** Refunds to existing users keep every integrity rule. */
  lemma RefundsKeepValid(db: Db, us: seq<Id>)
    requires Valid(db)
    requires forall i :: 0 <= i < |us| ==> us[i] in db.users
    ensures Valid(db.(credits := db.credits + Refunds(us)))
  {
    var r := Refunds(us);
    forall c | c in r ensures c.user in db.users {
      var i :| 0 <= i < |r| && r[i] == c;
    }
    AppendCreditsKeepValid(db, r);
  }

  /** The database after inserting one fresh booking row. */
  function InsertBooking(db: Db, b: Booking): (r: Db)
    ensures r.bookings == db.bookings[db.nextId := b] && r.nextId == db.nextId + 1
    ensures r.users == db.users && r.classes == db.classes && r.schedules == db.schedules
    ensures r.credits == db.credits && r.instructors == db.instructors && r.settings == db.settings
  {
    db.(bookings := db.bookings[db.nextId := b], nextId := db.nextId + 1)
  }

  /** A new CONFIRMED booking for a pair without any row keeps every integrity rule. */
  lemma InsertBookingKeepsValid(db: Db, user: Id, c: Id)
    requires Valid(db)
    requires user in db.users && c in db.classes
    requires RowFor(db, user, c).None?
    ensures Valid(InsertBooking(db, NewBooking(user, c)))
  {
    var b := NewBooking(user, c);
    InsertKeepsIds(db, b);
    InsertKeepsRefs(db, b);
    InsertKeepsPairs(db, b);
  }

  lemma InsertKeepsIds(db: Db, b: Booking)
    requires IdsIssued(db)
    ensures IdsIssued(InsertBooking(db, b))
  {
  }

  lemma InsertKeepsRefs(db: Db, b: Booking)
    requires RefsExist(db) && b.user in db.users && b.gymClass in db.classes
    ensures RefsExist(InsertBooking(db, b))
  {
  }

  lemma InsertKeepsPairs(db: Db, b: Booking)
    requires BookingPairsUnique(db.bookings) && db.nextId !in db.bookings
    requires RowFor(db, b.user, b.gymClass).None?
    requires forall k :: k in db.bookings ==> k < db.nextId
    ensures BookingPairsUnique(InsertBooking(db, b).bookings)
  {
    var bs := InsertBooking(db, b).bookings;
    forall i, j | i in bs && j in bs && i != j
      ensures bs[i].user != bs[j].user || bs[i].gymClass != bs[j].gymClass
    {
      if i != db.nextId && j != db.nextId {
        assert bs[i] == db.bookings[i] && bs[j] == db.bookings[j];
      }
    }
  }

  /** Turning one row of class `c` CONFIRMED that was not raises the count of `c` by one. */
  lemma ConfirmedCountUp(bs: map<Id, Booking>, k: Id, b: Booking)
    requires k !in bs || bs[k].status != Confirmed || bs[k].gymClass != b.gymClass
    requires b.status == Confirmed
    requires k in bs ==> bs[k].gymClass == b.gymClass
    ensures ConfirmedCount(bs[k := b], b.gymClass) == ConfirmedCount(bs, b.gymClass) + 1
  {
    var c := b.gymClass;
    assert ConfirmedSet(bs[k := b], c) == ConfirmedSet(bs, c) + {k};
  }

  /** Turning one CONFIRMED row of class `c` into a cancelled one lowers the count of `c` by one. */
  lemma ConfirmedCountDown(bs: map<Id, Booking>, k: Id, now: int)
    requires k in bs && bs[k].status == Confirmed
    ensures ConfirmedCount(bs[k := Cancel(bs[k], now)], bs[k].gymClass) == ConfirmedCount(bs, bs[k].gymClass) - 1
  {
    var c := bs[k].gymClass;
    var bs' := bs[k := Cancel(bs[k], now)];
    assert ConfirmedSet(bs', c) == ConfirmedSet(bs, c) - {k};
  }

  /** The loop that cancels each listed booking and, when refunding, credits its owner one class. */
  method CancelBookings(bs0: map<Id, Booking>, cs0: seq<Credit>, bookings: seq<Id>, refund: bool, now: int)
    returns (bs: map<Id, Booking>, cs: seq<Credit>, refunded: nat)
    requires forall k :: k in bookings ==> k in bs0
    ensures bs == CancelAll(bs0, bookings, now)
    ensures cs == cs0 + if refund then Refunds(BookingOwners(bs0, bookings)) else []
    ensures refunded == if refund then |bookings| else 0
  {
    bs, cs, refunded := bs0, cs0, 0;
    for j := 0 to |bookings|
      invariant bs == CancelAll(bs0, bookings[..j], now)
      invariant cs == cs0 + if refund then Refunds(BookingOwners(bs0, bookings[..j])) else []
      invariant refunded == if refund then j else 0
    {
      var k := bookings[j];
      assert k in bookings;
      CancelAllStep(bs0, bookings, j, now);
      RefundsStep(cs0, bs0, bookings, j);
      var b := bs[k];
      bs := bs[k := Cancel(b, now)];
      if refund {
        cs := cs + [NewCredit(b.user, 1)];
        refunded := refunded + 1;
      }
    }
    assert bookings[..|bookings|] == bookings;
  }
}
