/** The account of one funder of a share key: paid in, still there, paid back, or spent, and nothing else. */
module Funders {
  import opened Prelude
  import opened Credit
  import opened SharePools
  import Settlement
  import Availability
  import opened LedgerRuns
  import opened Refunds

  function StakeIn(s: State, k: KeyId, d: Device): int {
    if k in s.keys then Stake(s.keys[k].contributions, d) else 0
  }

  /** What d paid in is in the pool, was paid back, or was spent, over a stretch in which `spent` was taken from d. */
  ghost predicate Balanced(s: State, t: State, k: KeyId, d: Device, spent: int) {
    PaidIn(t.books.rows, k, d) - PaidIn(s.books.rows, k, d)
    == StakeIn(t, k, d) - StakeIn(s, k, d) + RefundedTo(t.books.rows, k, d) - RefundedTo(s.books.rows, k, d) + spent
  }

  /** The pool a settlement spends from, and how much. */
  function SpendOf(s: State, op: Op): Option<(KeyId, int)> {
    match op
    case SettleFleet(Share(_, k), _, _, cost) =>
      if cost > 0 && k in s.keys && s.keys[k].funded then Some((k, Settlement.Payable(s, op.consumer, cost, true))) else None
    case SettleProvider(Share(_, k), _, cost) =>
      if cost > 0 && k in s.keys && s.keys[k].funded then Some((k, Settlement.Payable(s, op.consumer, cost, false))) else None
    case _ => None
  }

  /** What a spend takes from one funder: their part of the pro-rata reductions. */
  function TakenFrom(cs: seq<Contribution>, amount: int, d: Device): int {
    Stake(cs, d) - Stake(SpendPool(cs, amount), d)
  }

  function SpentBy(s: State, now: int, op: Op, k: KeyId, d: Device): int {
    match SpendOf(s, op)
    case Some((j, amount)) => if j == k && k in s.keys && Apply(s, now, op).Ok? then TakenFrom(s.keys[k].contributions, amount, d) else 0
    case None => 0
  }

  lemma {:induction false} SameAll(s: State, t: State, k: KeyId, d: Device)
    requires t.keys == s.keys && SameRefunds(s.books.rows, t.books.rows) && SameFunding(s.books.rows, t.books.rows)
    ensures Balanced(s, t, k, d, 0)
  {
    hide RefundedTo, PaidIn;
  }

  lemma {:induction false} StakeAppend(cs: seq<Contribution>, c: Contribution, d: Device)
    ensures Stake(cs + [c], d) == Stake(cs, d) + if c.funder == d then c.remaining else 0
  {
    if cs == [] {
      assert cs + [c] == [c] && [c][1..] == [];
    } else {
      assert (cs + [c])[1..] == cs[1..] + [c];
      StakeAppend(cs[1..], c, d);
    }
  }

  /** Credits moved into a pool become the sender's stake. */
  lemma {:induction false} FundBalanced(s: State, sender: Device, j: KeyId, key: ShareKey, amount: int, k: KeyId, d: Device)
    requires Stake(key.contributions, d) == StakeIn(s, j, d) + if sender == d then amount else 0
    ensures Balanced(s, FundPool(s, sender, j, key, amount), k, d, 0)
  {
    hide RefundedTo, PaidIn, Stake;
    PaidAppend(s.books.rows, Row(sender, ShareKeyFund(j), -amount), k, d);
    RefundedAppend(s.books.rows, Row(sender, ShareKeyFund(j), -amount), k, d);
  }

  lemma {:induction false} MintBalanced(s: State, now: int, op: Op, k: KeyId, d: Device)
    requires op.MintKey? && Apply(s, now, op).Ok?
    ensures Balanced(s, Apply(s, now, op).value, k, d, 0)
  {
    hide Balanced, RefundedTo, PaidIn;
    var first := Contribution(op.contribution, op.issuer, op.budget, op.budget, now, false);
    assert Stake([first], d) == if op.issuer == d then op.budget else 0 by { StakeAppend([], first, d); }
    FundBalanced(s, op.issuer, op.key, ShareKey(op.issuer, now + op.expiresIn, op.budget, 0, None, true, None, [first]), op.budget, k, d);
  }

  lemma {:induction false} FundKeyBalanced(s: State, now: int, op: Op, k: KeyId, d: Device)
    requires op.FundKey? && Apply(s, now, op).Ok?
    ensures Balanced(s, Apply(s, now, op).value, k, d, 0)
  {
    hide RefundedTo, PaidIn, Stake;
    var key, more := s.keys[op.key], Contribution(op.contribution, op.sender, op.amount, op.amount, now, false);
    StakeAppend(key.contributions, more, d);
    FundBalanced(s, op.sender, op.key, key.(budget := key.budget + op.amount, contributions := key.contributions + [more]), op.amount, k, d);
  }

  lemma {:induction false} ClosedStake(cs: seq<Contribution>, d: Device)
    requires forall i :: 0 <= i < |cs| ==> !cs[i].refunded
    ensures Stake(Closed(cs), d) == 0
  {
    if cs != [] {
      assert Closed(cs)[1..] == Closed(cs[1..]);
      ClosedStake(cs[1..], d);
    }
  }

  lemma {:induction false} RefundBalanced(s: State, now: int, j: KeyId, key: ShareKey, k: KeyId, d: Device)
    requires KeysOk(s.keys, now) && j in s.keys && s.keys[j] == key.(revokedAt := s.keys[j].revokedAt)
    requires key.funded && !Settled(key)
    ensures Balanced(s, Refund(s, j, key, now), k, d, 0)
  {
    hide RefundedTo, PaidIn, Stake, PayBack, Remaining;
    assert KeyOk(s.keys[j], now);
    PayBackRows(s.books, j, key.contributions, k, d);
    ClosedStake(key.contributions, d);
  }

  lemma {:induction false} RevokeBalanced(s: State, now: int, op: Op, k: KeyId, d: Device)
    requires Inv(s, now) && op.RevokeKey? && Apply(s, now, op).Ok?
    ensures Balanced(s, Apply(s, now, op).value, k, d, 0)
  {
    hide RefundedTo, PaidIn, Stake, Refund, KeysOk, BooksOk, AccountsOk, PoolsAgree, EarningsOk;
    var key := s.keys[op.key].(revokedAt := Some(now));
    if key.funded && !Settled(key) {
      RefundBalanced(s, now, op.key, key, k, d);
    }
  }

  lemma {:induction false} ExpiryBalanced(s: State, now: int, order: seq<KeyId>, k: KeyId, d: Device)
    requires Inv(s, now)
    ensures Balanced(s, RefundExpired(s, now, order), k, d, 0)
    decreases |order|
  {
    hide Inv, Credits, RefundedTo, PaidIn, Stake, Refund;
    if order != [] {
      var j := order[0];
      if j in s.keys && Refundable(s.keys[j], now) {
        RefundReturnsStakes(s, now, j, s.keys[j]);
        assert KeysOk(s.keys, now) by { InvKeys(s, now); }
        RefundBalanced(s, now, j, s.keys[j], k, d);
      }
      ExpiryBalanced(RefundIfDue(s, now, j), now, order[1..], k, d);
    }
  }

  lemma {:induction false} MigrateOneBalanced(s: State, now: int, j: KeyId, contribution: nat, k: KeyId, d: Device)
    requires Inv(s, now) && j in s.keys && !s.keys[j].funded && MigrateOne(s, now, j, contribution).Ok?
    ensures Balanced(s, MigrateOne(s, now, j, contribution).value, k, d, 0)
  {
    hide RefundedTo, PaidIn, BooksOk, AccountsOk, PoolsAgree, EarningsOk, Remaining;
    assert KeyOk(s.keys[j], now);
    var (key, debit) := Migrated(s.keys[j], now, contribution, Get(s.books.balances, s.keys[j].issuer));
    MigratedStake(s.keys[j], now, contribution, Get(s.books.balances, s.keys[j].issuer), d);
    MigratedIssuer(s.keys[j], now, contribution, Get(s.books.balances, s.keys[j].issuer));
    if debit > 0 {
      FundBalanced(s, key.issuer, j, key, debit, k, d);
    }
  }

  lemma {:induction false} MigratedStake(key: ShareKey, now: int, contribution: nat, balance: int, d: Device)
    ensures var (key', debit) := Migrated(key, now, contribution, balance);
      debit >= 0 && Stake(key'.contributions, d) == if key.issuer == d then debit else 0
  {
    var (key', debit) := Migrated(key, now, contribution, balance);
    assert |key'.contributions| == 1 && key'.contributions[1..] == [];
  }

  lemma {:induction false} MigrateBalanced(s: State, now: int, order: seq<(KeyId, nat)>, k: KeyId, d: Device)
    requires Inv(s, now) && Migrate(s, now, order).Ok?
    ensures Balanced(s, Migrate(s, now, order).value, k, d, 0)
    decreases |order|
  {
    hide Inv, Credits, RefundedTo, PaidIn, Stake, MigrateOne;
    if order != [] {
      var (j, contribution) := order[0];
      if j !in s.keys || s.keys[j].funded {
        MigrateBalanced(s, now, order[1..], k, d);
      } else {
        MigrateOneKeeps(s, now, j, contribution);
        MigrateOneBalanced(s, now, j, contribution, k, d);
        MigrateBalanced(MigrateOne(s, now, j, contribution).value, now, order[1..], k, d);
      }
    }
  }

  // ---- settlement ----

  function TakenBy(s: State, consumer: Settlement.Consumer, amount: int, k: KeyId, d: Device): int {
    if consumer.Share? && consumer.key == k && k in s.keys && s.keys[k].funded then TakenFrom(s.keys[k].contributions, amount, d) else 0
  }

  lemma {:induction false} ChargeBalanced(s: State, consumer: Settlement.Consumer, amount: int, k: KeyId, d: Device)
    requires Settlement.Charge(s, consumer, amount).Ok?
    ensures Balanced(s, Settlement.Charge(s, consumer, amount).value, k, d, TakenBy(s, consumer, amount, k, d))
  {
    hide RefundedTo, PaidIn, Stake, SpendPool;
    match consumer
    case Wallet(e) => PostRow(s.books, e, Spent, -amount);
    case Share(issuer, j) =>
      PostRow(s.books, issuer, Spent, -amount);
      OtherRow(s.books.rows, Row(issuer, PoolSpent(j), -amount));
    case ApiAccount(_, _) =>
  }

  lemma {:induction false} ThenPlain(s: State, t: State, u: State, k: KeyId, d: Device, spent: int)
    requires Balanced(s, t, k, d, spent) && u.keys == t.keys
    requires SameRefunds(t.books.rows, u.books.rows) && SameFunding(t.books.rows, u.books.rows)
    ensures Balanced(s, u, k, d, spent)
  {
    hide RefundedTo, PaidIn, Stake;
  }

  lemma {:induction false} SettlementBalanced(s: State, now: int, op: Op, k: KeyId, d: Device)
    requires Apply(s, now, op).Ok? && (op.SettleFleet? || op.SettleProvider?)
    ensures Balanced(s, Apply(s, now, op).value, k, d, SpentBy(s, now, op, k, d))
  {
    hide Balanced, SameRefunds, SameFunding, TakenFrom, Settlement.Payable, Settlement.Charge, Settlement.PayFleet, Settlement.Earn, Settlement.Recipients;
    var u := Apply(s, now, op).value;
    if op.cost <= 0 {
      assert Balanced(s, s, k, d, 0) by { Still(s, k, d); }
    } else {
      var amount := Settlement.Payable(s, op.consumer, op.cost, op.SettleFleet?);
      var t := Settlement.Charge(s, op.consumer, amount).value;
      ChargeBalanced(s, op.consumer, amount, k, d);
      if op.SettleFleet? {
        PayFleetRows(t.books, op.provider, Settlement.Recipients(op.online, op.provider, Settlement.Payer(op.consumer)), amount);
      } else {
        EarnRows(t.books, OPS, OpsFee, amount - Settlement.ProviderShareOf(amount));
      }
      ThenPlain(s, t, u, k, d, TakenBy(s, op.consumer, amount, k, d));
    }
  }

  lemma {:induction false} Still(s: State, k: KeyId, d: Device)
    ensures Balanced(s, s, k, d, 0)
  {}

  // ---- steps and runs ----

  lemma {:induction false} StepBalanced(s: State, now: int, op: Op, k: KeyId, d: Device)
    requires Inv(s, now)
    ensures Balanced(s, Step(s, now, op), k, d, SpentBy(s, now, op, k, d))
  {
    hide Apply, Inv, Balanced, SameRefunds, SameFunding, StakeIn, TakenFrom, Settlement.Payable;
    if Apply(s, now, op).Err? {
      Still(s, k, d);
    } else {
      match op
      case SettleFleet(_, _, _, _) => SettlementBalanced(s, now, op, k, d);
      case SettleProvider(_, _, _) => SettlementBalanced(s, now, op, k, d);
      case MintKey(_, _, _, _, _) => MintBalanced(s, now, op, k, d);
      case FundKey(_, _, _, _) => FundKeyBalanced(s, now, op, k, d);
      case RevokeKey(_, _) => RevokeBalanced(s, now, op, k, d);
      case ReconcileAvailability(_, _) => SweepingBalanced(s, now, op, k, d);
      case RefundExpiredKeys(_) => SweepingBalanced(s, now, op, k, d);
      case MigrateKeys(_) => SweepingBalanced(s, now, op, k, d);
      case _ =>
        PlainOpRows(s, now, op);
        SameAll(s, Apply(s, now, op).value, k, d);
    }
  }

  lemma {:induction false} SweepingBalanced(s: State, now: int, op: Op, k: KeyId, d: Device)
    requires Inv(s, now) && Apply(s, now, op).Ok? && (op.ReconcileAvailability? || op.RefundExpiredKeys? || op.MigrateKeys?)
    ensures Balanced(s, Apply(s, now, op).value, k, d, 0)
  {
    hide Inv, Balanced, SharePools.Migrate, SharePools.RefundExpired, Availability.Reconcile, SameRefunds, SameFunding;
    match op
    case ReconcileAvailability(recipients, listed) =>
      ReconcileRows(s, recipients, listed);
      SameAll(s, Availability.Reconcile(s, recipients, listed), k, d);
    case RefundExpiredKeys(keys) => ExpiryBalanced(s, now, keys, k, d);
    case MigrateKeys(legacy) => MigrateBalanced(s, now, legacy, k, d);
  }

  /** All that settlements took from a funder's contributions to a key over a run. */
  function RunSpent(s: State, trace: Trace, k: KeyId, d: Device): int {
    if trace == [] then 0
    else
      var n := |trace| - 1;
      RunSpent(s, trace[..n], k, d) + SpentBy(Run(s, trace[..n]), trace[n].0, trace[n].1, k, d)
  }

  lemma {:induction false} StakeFalls(cs: seq<Contribution>, cs': seq<Contribution>, d: Device)
    requires |cs'| == |cs|
    requires forall i :: 0 <= i < |cs| ==> cs'[i].funder == cs[i].funder && cs'[i].remaining <= cs[i].remaining
    ensures Stake(cs', d) <= Stake(cs, d)
  {
    if cs != [] {
      assert forall i :: 0 <= i < |cs[1..]| ==> cs[1..][i] == cs[i + 1] && cs'[1..][i] == cs'[i + 1];
      StakeFalls(cs[1..], cs'[1..], d);
    }
  }

  lemma {:induction false} TakenIsPositive(cs: seq<Contribution>, amount: int, d: Device)
    requires ContributionsOk(cs) && 0 <= amount <= Remaining(cs)
    ensures TakenFrom(cs, amount, d) >= 0
  {
    hide Remaining, Stake, SpendPool;
    SpendPoolExact(cs, amount);
    var cs' := SpendPool(cs, amount);
    forall i | 0 <= i < |cs| ensures cs'[i].funder == cs[i].funder && cs'[i].remaining <= cs[i].remaining {
      SpendNeverAdds(cs, amount, i);
    }
    StakeFalls(cs, cs', d);
  }

  lemma {:induction false} SpentIsPositive(s: State, now: int, op: Op, k: KeyId, d: Device)
    requires Inv(s, now)
    ensures SpentBy(s, now, op, k, d) >= 0
  {
    hide TakenFrom, Apply, Remaining, BooksOk, AccountsOk, PoolsAgree, EarningsOk;
    if SpendOf(s, op).Some? && SpendOf(s, op).value.0 == k {
      assert KeyOk(s.keys[k], now);
      Settlement.KeyBounds(s.keys[k], now);
      TakenIsPositive(s.keys[k].contributions, SpendOf(s, op).value.1, d);
    }
  }

  lemma {:induction false} StakeIsPositive(cs: seq<Contribution>, d: Device)
    requires ContributionsOk(cs)
    ensures Stake(cs, d) >= 0
  {
    if cs != [] {
      StakeIsPositive(cs[1..], d);
    }
  }

  lemma {:induction false} RunBalanced(s: State, start: int, trace: Trace, k: KeyId, d: Device)
    requires Inv(s, start) && Forward(start, trace) && Covers(s, trace)
    ensures Balanced(s, Run(s, trace), k, d, RunSpent(s, trace, k, d)) && RunSpent(s, trace, k, d) >= 0
  {
    hide Inv, RefundedTo, PaidIn, StakeIn, Step, StepOk, SpentBy, Covered;
    if trace != [] {
      var n := |trace| - 1;
      var init, now, op := trace[..n], trace[n].0, trace[n].1;
      var p := Run(s, init);
      RunBalanced(s, start, init, k, d);
      assert Inv(p, now) by {
        RunsConserve(s, start, init);
        StepOkInv(s, p, End(start, init), RunFlow(s, init));
        InvLater(p, End(start, init), now);
      }
      StepBalanced(p, now, op, k, d);
      SpentIsPositive(p, now, op, k, d);
    }
  }

  /**
   In every run from an empty database, what a device paid into a key is exactly what it still has there, plus what it got back,
   plus what settlements took from its contributions; so nobody ever gets back more than they paid in.
   */
  lemma {:induction false} EveryCreditPaidIn(mint: nat, providers: set<Provider>, apiKeys: map<string, ApiKey>, start: int, trace: Trace,
                                             k: KeyId, d: Device)
    requires Forward(start, trace) && Covers(Genesis(mint, providers, apiKeys), trace)
    ensures var s := Genesis(mint, providers, apiKeys);
      var t := Run(s, trace);
      && PaidIn(t.books.rows, k, d) == StakeIn(t, k, d) + RefundedTo(t.books.rows, k, d) + RunSpent(s, trace, k, d)
      && StakeIn(t, k, d) >= 0 && RunSpent(s, trace, k, d) >= 0
      && RefundedTo(t.books.rows, k, d) <= PaidIn(t.books.rows, k, d)
  {
    hide Run, RunSpent, BooksOk, AccountsOk, PoolsAgree, EarningsOk, Remaining, Stake, Total;
    var s := Genesis(mint, providers, apiKeys);
    GenesisIsSound(mint, providers, apiKeys, start);
    RunBalanced(s, start, trace, k, d);
    RunsConserve(s, start, trace);
    var t := Run(s, trace);
    if k in t.keys {
      assert KeyOk(t.keys[k], End(start, trace));
      StakeIsPositive(t.keys[k].contributions, d);
    }
  }
}
