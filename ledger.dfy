/**
 * The credit ledger: an append-only sequence of signed entries, from which
 * every user's available credits are derived.
 */
module Ledger {
  import opened Wrappers
  import opened Models

  /** Debits always count; a positive entry counts while it has not expired. */
  predicate Counts(c: Credit, now: int)
  {
    c.amount < 0 || (c.amount > 0 && (c.expiresAt.None? || c.expiresAt.value > now))
  }

  /** The contribution of one entry to `user`'s balance. */
  function Contribution(c: Credit, user: Id, now: int): int
  {
    if c.user == user && Counts(c, now) then c.amount else 0
  }

  /** The balance loop of the profile, booking and user-search endpoints. */
  function Balance(cs: seq<Credit>, user: Id, now: int): int
  {
    if cs == [] then 0 else Balance(cs[..|cs| - 1], user, now) + Contribution(cs[|cs| - 1], user, now)
  }

  /** The value shown to users: the balance floored at zero. */
  function Displayed(balance: int): (r: int)
    ensures r >= 0 && r >= balance
    ensures r == balance || r == 0
  {
    if balance < 0 then 0 else balance
  }

  /** The admin user-detail variant: only unexpired positive entries, debits ignored. */
  function PositiveBalance(cs: seq<Credit>, user: Id, now: int): int
  {
    if cs == [] then 0
    else
      var c := cs[|cs| - 1];
      PositiveBalance(cs[..|cs| - 1], user, now)
        + (if c.user == user && c.amount > 0 && (c.expiresAt.None? || c.expiresAt.value > now) then c.amount else 0)
  }

  /** The balance loop itself, over the ledger filtered to one user. */
  method AvailableCredits(cs: seq<Credit>, user: Id, now: int) returns (balance: int)
    ensures balance == Balance(cs, user, now)
  {
    balance := 0;
    for i := 0 to |cs|
      invariant balance == Balance(cs[..i], user, now)
    {
      assert cs[..i + 1][..i] == cs[..i];
      var c := cs[i];
      if c.user == user {
        if c.amount < 0 {
          balance := balance + c.amount;
        } else if c.amount > 0 && (c.expiresAt.None? || c.expiresAt.value > now) {
          balance := balance + c.amount;
        }
      }
    }
    assert cs[..|cs|] == cs;
  }

  /** The sum of `get_user_detail`: the user's unexpired positive entries, debits skipped. */
  method PositiveCredits(cs: seq<Credit>, user: Id, now: int) returns (sum: int)
    ensures sum == PositiveBalance(cs, user, now)
  {
    sum := 0;
    for i := 0 to |cs|
      invariant sum == PositiveBalance(cs[..i], user, now)
    {
      assert cs[..i + 1][..i] == cs[..i];
      var c := cs[i];
      if c.user == user && c.amount > 0 && (c.expiresAt.None? || c.expiresAt.value > now) {
        sum := sum + c.amount;
      }
    }
    assert cs[..|cs|] == cs;
  }

  /** The balance of a concatenation is the sum of the balances. */
  lemma {:induction false} BalanceAppend(a: seq<Credit>, b: seq<Credit>, user: Id, now: int)
    ensures Balance(a + b, user, now) == Balance(a, user, now) + Balance(b, user, now)
  {
    if b == [] {
      assert a + b == a;
    } else {
      var b' := b[..|b| - 1];
      assert (a + b)[..|a + b| - 1] == a + b';
      assert (a + b)[|a + b| - 1] == b[|b| - 1];
      BalanceAppend(a, b', user, now);
    }
  }

  /** Appending one entry changes only its owner's balance, by its contribution. */
  lemma {:induction false} BalanceAppendOne(cs: seq<Credit>, c: Credit, user: Id, now: int)
    ensures Balance(cs + [c], user, now) == Balance(cs, user, now) + Contribution(c, user, now)
  {
    assert (cs + [c])[..|cs|] == cs;
  }

  /** A booking debit lowers the owner's balance by exactly one and leaves everyone else's. */
  lemma {:induction false} DebitLowersByOne(cs: seq<Credit>, owner: Id, user: Id, now: int)
    ensures Balance(cs + [NewCredit(owner, -1)], user, now)
      == Balance(cs, user, now) - (if user == owner then 1 else 0)
  {
    BalanceAppendOne(cs, NewCredit(owner, -1), user, now);
  }

  /** A refund raises the owner's balance by exactly one and leaves everyone else's. */
  lemma {:induction false} RefundRaisesByOne(cs: seq<Credit>, owner: Id, user: Id, now: int)
    ensures Balance(cs + [NewCredit(owner, 1)], user, now)
      == Balance(cs, user, now) + (if user == owner then 1 else 0)
  {
    BalanceAppendOne(cs, NewCredit(owner, 1), user, now);
  }

  /** Expiry only removes credit: a later instant never shows a larger balance. */
  lemma {:induction false} BalanceNonIncreasingInTime(cs: seq<Credit>, user: Id, early: int, late: int)
    requires early <= late
    ensures Balance(cs, user, late) <= Balance(cs, user, early)
  {
    if cs != [] {
      BalanceNonIncreasingInTime(cs[..|cs| - 1], user, early, late);
    }
  }

  /** The positive-only figure is an upper bound of the displayed balance. */
  lemma {:induction false} PositiveBoundsDisplayed(cs: seq<Credit>, user: Id, now: int)
    ensures PositiveBalance(cs, user, now) >= 0
    ensures PositiveBalance(cs, user, now) >= Displayed(Balance(cs, user, now))
  {
    if cs != [] {
      PositiveBoundsDisplayed(cs[..|cs| - 1], user, now);
    }
  }

  /** Without debits the two figures agree. */
  lemma {:induction false} PositiveEqualsBalanceWithoutDebits(cs: seq<Credit>, user: Id, now: int)
    requires forall i :: 0 <= i < |cs| ==> cs[i].amount >= 0
    ensures PositiveBalance(cs, user, now) == Balance(cs, user, now)
  {
    if cs != [] {
      PositiveEqualsBalanceWithoutDebits(cs[..|cs| - 1], user, now);
    }
  }

  /** A debit the displayed value hides: one unexpired +1 and two debits show 0 but detail shows 1. */
  lemma VariantsDiffer(user: Id, now: int)
    ensures var cs := [NewCredit(user, 1), NewCredit(user, -1), NewCredit(user, -1)];
      Displayed(Balance(cs, user, now)) == 0 && PositiveBalance(cs, user, now) == 1
  {
    var c1 := [NewCredit(user, 1)];
    var c2 := c1 + [NewCredit(user, -1)];
    var cs := c2 + [NewCredit(user, -1)];
    assert c1[..0] == [];
    assert c2[..1] == c1;
    assert cs[..2] == c2;
    assert Balance(c1, user, now) == 1;
    assert Balance(c2, user, now) == 0;
    assert Balance(cs, user, now) == -1;
    assert PositiveBalance(c1, user, now) == 1;
    assert PositiveBalance(c2, user, now) == 1;
    assert cs == [NewCredit(user, 1), NewCredit(user, -1), NewCredit(user, -1)];
  }

  /** Every entry of `from` handed over to `to`; amounts and expiries untouched. */
  function Reassign(cs: seq<Credit>, from: Id, to: Id): (r: seq<Credit>)
    ensures |r| == |cs|
    ensures forall i :: 0 <= i < |cs| ==>
      r[i] == if cs[i].user == from then cs[i].(user := to) else cs[i]
  {
    if cs == [] then []
    else
      var c := cs[|cs| - 1];
      Reassign(cs[..|cs| - 1], from, to) + [if c.user == from then c.(user := to) else c]
  }

  /** After a reassignment the receiver holds both balances and the giver none; others are unaffected. */
  lemma {:induction false} ReassignBalances(cs: seq<Credit>, from: Id, to: Id, user: Id, now: int)
    requires from != to
    ensures Balance(Reassign(cs, from, to), to, now) == Balance(cs, to, now) + Balance(cs, from, now)
    ensures Balance(Reassign(cs, from, to), from, now) == 0
    ensures user != from && user != to ==> Balance(Reassign(cs, from, to), user, now) == Balance(cs, user, now)
  {
    if cs != [] {
      var r := Reassign(cs, from, to);
      assert r[..|r| - 1] == Reassign(cs[..|cs| - 1], from, to);
      ReassignBalances(cs[..|cs| - 1], from, to, user, now);
    }
  }

  /** Sum of all amounts, whoever holds them. */
  function TotalAmount(cs: seq<Credit>): int
  {
    if cs == [] then 0 else TotalAmount(cs[..|cs| - 1]) + cs[|cs| - 1].amount
  }

  /** Reassignment keeps the multiset of amounts, hence the ledger total. */
  lemma {:induction false} ReassignKeepsAmounts(cs: seq<Credit>, from: Id, to: Id)
    ensures TotalAmount(Reassign(cs, from, to)) == TotalAmount(cs)
    ensures multiset(AmountsOf(Reassign(cs, from, to))) == multiset(AmountsOf(cs))
  {
    assert AmountsOf(Reassign(cs, from, to)) == AmountsOf(cs);
    if cs != [] {
      var r := Reassign(cs, from, to);
      assert r[..|r| - 1] == Reassign(cs[..|cs| - 1], from, to);
      ReassignKeepsAmounts(cs[..|cs| - 1], from, to);
    }
  }

  function AmountsOf(cs: seq<Credit>): (r: seq<int>)
    ensures |r| == |cs| && forall i :: 0 <= i < |cs| ==> r[i] == cs[i].amount
  {
    if cs == [] then [] else AmountsOf(cs[..|cs| - 1]) + [cs[|cs| - 1].amount]
  }

  /** Entries that only add: each one +1 without expiry. */
  predicate OnlyRefundEntries(extra: seq<Credit>)
  {
    forall i :: 0 <= i < |extra| ==> extra[i].amount == 1 && extra[i].expiresAt.None?
  }

  /** A ledger of +1 entries without expiry gives nobody a negative balance. */
  lemma {:induction false} RefundEntriesNonNegative(extra: seq<Credit>, user: Id, now: int)
    requires OnlyRefundEntries(extra)
    ensures Balance(extra, user, now) >= 0
  {
    if extra != [] {
      RefundEntriesNonNegative(extra[..|extra| - 1], user, now);
    }
  }

  /** Appending +1 entries never lowers anybody's balance. */
  lemma RefundEntriesRaise(cs: seq<Credit>, extra: seq<Credit>, user: Id, now: int)
    requires OnlyRefundEntries(extra)
    ensures Balance(cs + extra, user, now) >= Balance(cs, user, now)
  {
    BalanceAppend(cs, extra, user, now);
    RefundEntriesNonNegative(extra, user, now);
  }

  /** Entries that are all a +1 refund to `user`. */
  predicate RefundsTo(extra: seq<Credit>, user: Id)
  {
    forall i :: 0 <= i < |extra| ==> extra[i] == NewCredit(user, 1)
  }

  /** Each such entry adds one to the user's balance. */
  lemma {:induction false} RefundsToBalance(extra: seq<Credit>, user: Id, now: int)
    requires RefundsTo(extra, user)
    ensures Balance(extra, user, now) == |extra|
  {
    if extra != [] {
      RefundsToBalance(extra[..|extra| - 1], user, now);
    }
  }

  /** One more refund to `user` at the end keeps the tail a run of refunds to `user`. */
  lemma RefundsToSnoc(base: seq<Credit>, cs: seq<Credit>, user: Id)
    requires base <= cs && RefundsTo(cs[|base|..], user)
    ensures base <= cs + [NewCredit(user, 1)] && RefundsTo((cs + [NewCredit(user, 1)])[|base|..], user)
  {
    assert (cs + [NewCredit(user, 1)])[|base|..] == cs[|base|..] + [NewCredit(user, 1)];
  }
}
