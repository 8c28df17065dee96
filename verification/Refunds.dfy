/** Every funder of a share key is paid back once: when the key is settled, exactly what is left of their contributions. */
module Refunds {
  import opened Prelude
  import opened Credit
  import opened SharePools
  import Settlement
  import Wallets
  import Availability
  import Withdrawals
  import opened LedgerRuns

  /** What the ledger shows as paid back to a device from a key's pool. */
  function RefundedTo(rows: seq<Row>, k: KeyId, d: Device): int {
    if rows == [] then 0
    else
      var n := |rows| - 1;
      RefundedTo(rows[..n], k, d) + (if rows[n].device == d && rows[n].kind == ShareKeyRefund(k) then rows[n].amount else 0)
  }

  /** What the ledger shows as paid by a device into a key's pool. */
  function PaidIn(rows: seq<Row>, k: KeyId, d: Device): int {
    if rows == [] then 0
    else
      var n := |rows| - 1;
      PaidIn(rows[..n], k, d) - (if rows[n].device == d && rows[n].kind == ShareKeyFund(k) then rows[n].amount else 0)
  }

  ghost predicate SameRefunds(a: seq<Row>, b: seq<Row>) {
    forall k, d :: RefundedTo(b, k, d) == RefundedTo(a, k, d)
  }

  ghost predicate SameFunding(a: seq<Row>, b: seq<Row>) {
    forall k, d :: PaidIn(b, k, d) == PaidIn(a, k, d)
  }

  /** The same contributions, and perhaps more, each with no more left than before. */
  ghost predicate Drawn(cs: seq<Contribution>, cs': seq<Contribution>) {
    |cs| <= |cs'| && forall i :: 0 <= i < |cs| ==>
      cs'[i] == cs[i].(remaining := cs'[i].remaining) && cs'[i].remaining <= cs[i].remaining
  }

  predicate Settles(s: State, t: State, k: KeyId) {
    k in s.keys && !Settled(s.keys[k]) && k in t.keys && Settled(t.keys[k])
  }

  function Due(s: State, t: State, k: KeyId, d: Device): int {
    if Settles(s, t, k) then Stake(s.keys[k].contributions, d) else 0
  }

  /** A settled key stays as it is; another keeps its contributions unless it settles now. */
  ghost predicate KeyMoves(key: ShareKey, key': ShareKey) {
    if Settled(key) then key'.settledAt == key.settledAt && key'.contributions == key.contributions
    else Settled(key') || Drawn(key.contributions, key'.contributions)
  }

  ghost predicate KeysMove(keys: map<KeyId, ShareKey>, keys': map<KeyId, ShareKey>) {
    && (forall k :: k in keys ==> k in keys' && KeyMoves(keys[k], keys'[k]))
    && (forall k :: k in keys' && k !in keys ==> !Settled(keys'[k]))
  }

  /** Pools are paid back by the step that settles them, stake by stake, and by no other. */
  ghost predicate RefundStep(s: State, t: State) {
    && KeysMove(s.keys, t.keys)
    && (forall k, d :: RefundedTo(t.books.rows, k, d) == RefundedTo(s.books.rows, k, d) + Due(s, t, k, d))
  }

  // ---- rows ----

  lemma {:induction false} RefundedAppend(rows: seq<Row>, r: Row, k: KeyId, d: Device)
    ensures RefundedTo(rows + [r], k, d) == RefundedTo(rows, k, d) + (if r.device == d && r.kind == ShareKeyRefund(k) then r.amount else 0)
  {
    assert (rows + [r])[..|rows|] == rows;
  }

  lemma {:induction false} PaidAppend(rows: seq<Row>, r: Row, k: KeyId, d: Device)
    ensures PaidIn(rows + [r], k, d) == PaidIn(rows, k, d) - (if r.device == d && r.kind == ShareKeyFund(k) then r.amount else 0)
  {
    assert (rows + [r])[..|rows|] == rows;
  }

  lemma {:induction false} OtherRow(rows: seq<Row>, r: Row)
    requires !r.kind.ShareKeyRefund?
    ensures SameRefunds(rows, rows + [r])
    ensures !r.kind.ShareKeyFund? ==> SameFunding(rows, rows + [r])
  {
    hide RefundedTo, PaidIn;
    forall k, d ensures RefundedTo(rows + [r], k, d) == RefundedTo(rows, k, d) {
      RefundedAppend(rows, r, k, d);
    }
    if !r.kind.ShareKeyFund? {
      forall k, d ensures PaidIn(rows + [r], k, d) == PaidIn(rows, k, d) {
        PaidAppend(rows, r, k, d);
      }
    }
  }

  lemma {:induction false} PostRow(b: Books, d: Device, kind: Kind, amount: int)
    requires !kind.ShareKeyRefund?
    ensures SameRefunds(b.rows, Post(b, d, kind, amount).rows)
    ensures !kind.ShareKeyFund? ==> SameFunding(b.rows, Post(b, d, kind, amount).rows)
  {
    OtherRow(b.rows, Row(d, kind, amount));
  }

  lemma {:induction false} PostAllRows(b: Books, ds: seq<Device>, kind: Kind, amount: int)
    requires !kind.ShareKeyRefund? && !kind.ShareKeyFund?
    ensures SameRefunds(b.rows, PostAll(b, ds, kind, amount).rows) && SameFunding(b.rows, PostAll(b, ds, kind, amount).rows)
    decreases |ds|
  {
    hide RefundedTo, PaidIn;
    if ds != [] {
      PostRow(b, ds[0], kind, amount);
      PostAllRows(Post(b, ds[0], kind, amount), ds[1..], kind, amount);
    }
  }

  // ---- steps that settle no key ----

  lemma {:induction false} KeyStays(key: ShareKey)
    ensures KeyMoves(key, key)
  {}

  lemma {:induction false} SameKeys(s: State, t: State)
    requires t.keys == s.keys && SameRefunds(s.books.rows, t.books.rows)
    ensures RefundStep(s, t)
  {
    hide RefundedTo, KeyMoves, Stake;
    forall k | k in s.keys ensures KeyMoves(s.keys[k], t.keys[k]) { KeyStays(s.keys[k]); }
  }

  /** One key replaced by another state of it that settles nothing. */
  lemma {:induction false} OneKey(s: State, t: State, k: KeyId, key: ShareKey)
    requires t.keys == s.keys[k := key] && SameRefunds(s.books.rows, t.books.rows)
    requires if k in s.keys then KeyMoves(s.keys[k], key) && (Settled(key) ==> Settled(s.keys[k])) else !Settled(key)
    ensures RefundStep(s, t)
  {
    hide RefundedTo, KeyMoves, Stake;
    forall j | j in s.keys ensures KeyMoves(s.keys[j], t.keys[j]) { KeyStays(s.keys[j]); }
  }

  predicate WalletOnly(op: Op) {
    op.UpsertDevice? || op.RecordBonus? || op.AdminMintTo? || op.AccountBonus? || op.LinkDevice? || op.UnlinkDevice?
    || op.DeviceTransfer? || op.AccountTransfer? || op.SweepDevice? || op.ProviderPayout? || AccountsOnly(op)
  }

  /** No share key, and no row that names one. */
  ghost predicate LeavesPools(s: State, t: State) {
    t.keys == s.keys && SameRefunds(s.books.rows, t.books.rows) && SameFunding(s.books.rows, t.books.rows)
  }

  lemma {:induction false} WalletOpRows(s: State, now: int, op: Op)
    requires Apply(s, now, op).Ok? && WalletOnly(op) && !AccountsOnly(op) && !op.DeviceTransfer? && !op.AccountTransfer?
    ensures LeavesPools(s, Apply(s, now, op).value)
  {
    hide RefundedTo, PaidIn;
    match op {
      case RecordBonus(d, bonus) => PostRow(s.books, d, Bonus, bonus);
      case AdminMintTo(d, amount) => PostRow(s.books, d, AdminMint, amount);
      case SweepDevice(_, d) => PostRow(s.books, d, SweepOut, -Get(s.books.balances, d));
      case _ =>
    }
  }

  lemma {:induction false} TransferOpRows(s: State, now: int, op: Op)
    requires Apply(s, now, op).Ok? && (op.DeviceTransfer? || op.AccountTransfer?)
    ensures LeavesPools(s, Apply(s, now, op).value)
  {
    hide RefundedTo, PaidIn;
    var sent := if op.DeviceTransfer? then Post(s.books, op.sender, TransferOut, -op.amount) else s.books;
    if op.DeviceTransfer? {
      PostRow(s.books, op.sender, TransferOut, -op.amount);
    }
    if op.target.ToDevice? {
      PostRow(sent, op.target.device, TransferIn, op.amount);
    }
  }

  lemma {:induction false} AccountsOpRows(s: State, now: int, op: Op)
    requires Apply(s, now, op).Ok? && AccountsOnly(op)
    ensures LeavesPools(s, Apply(s, now, op).value)
  {
    hide RefundedTo, PaidIn, Withdrawals.DepositOnchain, Withdrawals.DepositTreasury, Withdrawals.Submit, Withdrawals.Complete, Withdrawals.Reject;
  }

  lemma {:induction false} PlainOpRows(s: State, now: int, op: Op)
    requires Apply(s, now, op).Ok? && WalletOnly(op)
    ensures LeavesPools(s, Apply(s, now, op).value)
  {
    hide Apply, LeavesPools;
    if AccountsOnly(op) {
      AccountsOpRows(s, now, op);
    } else if op.DeviceTransfer? || op.AccountTransfer? {
      TransferOpRows(s, now, op);
    } else {
      WalletOpRows(s, now, op);
    }
  }

  // ---- settlement and availability ----

  lemma {:induction false} EarnRows(b: Books, d: Device, kind: Kind, amount: int)
    requires !kind.ShareKeyRefund? && !kind.ShareKeyFund?
    ensures SameRefunds(b.rows, Settlement.Earn(b, d, kind, amount).rows)
    ensures SameFunding(b.rows, Settlement.Earn(b, d, kind, amount).rows)
  {
    PostRow(b, d, kind, amount);
  }

  lemma {:induction false} PayFleetRows(b: Books, provider: Option<Device>, peers: seq<Device>, amount: int)
    ensures SameRefunds(b.rows, Settlement.PayFleet(b, provider, peers, amount).rows)
    ensures SameFunding(b.rows, Settlement.PayFleet(b, provider, peers, amount).rows)
  {
    hide RefundedTo, PaidIn, Settlement.Earn, PostAll, Settlement.PerPeer, Settlement.OpsTotal, Settlement.DirectEarnOf;
    var b1 := match provider case None => b case Some(p) => Settlement.Earn(b, p, DirectEarn, Settlement.DirectEarnOf(amount));
    if provider.Some? {
      EarnRows(b, provider.value, DirectEarn, Settlement.DirectEarnOf(amount));
    }
    var share := Settlement.PerPeer(amount, |peers|);
    var b2 := if share > 0 then PostAll(b1, peers, AvailabilityEarn, share) else b1;
    PostAllRows(b1, peers, AvailabilityEarn, share);
    EarnRows(b2, OPS, OpsFee, Settlement.OpsTotal(amount, |peers|));
  }

  lemma {:induction false} SpendDraws(key: ShareKey, now: int, amount: int)
    requires KeyOk(key, now) && key.funded && 0 <= amount <= Remaining(key.contributions)
    ensures KeyMoves(key, key.(consumed := key.consumed + amount, contributions := SpendPool(key.contributions, amount)))
  {
    hide Remaining;
    var cs := key.contributions;
    SpendPoolExact(cs, amount);
    if !Settled(key) {
      forall i | 0 <= i < |cs| ensures SpendPool(cs, amount)[i].remaining <= cs[i].remaining { SpendNeverAdds(cs, amount, i); }
    }
  }

  lemma {:induction false} SpendNeverAdds(cs: seq<Contribution>, amount: int, i: nat)
    requires ContributionsOk(cs) && 0 <= amount <= Remaining(cs) && i < |cs|
    ensures SpendPool(cs, amount)[i].remaining <= cs[i].remaining
  {
    SharesTotal(cs);
    if amount > 0 && Shares(cs) != [] {
      Apportionment.ExactApportionment(Shares(cs), amount);
      WrittenBack(cs, Apportionment.Reductions(Shares(cs), amount), i);
    }
  }

  lemma {:induction false} WrittenBack(cs: seq<Contribution>, rs: seq<int>, i: nat)
    requires |rs| == |Shares(cs)| && i < |cs| && forall j :: 0 <= j < |rs| ==> rs[j] >= 0
    ensures WriteBack(cs, rs)[i].remaining <= cs[i].remaining
  {
    if i > 0 {
      WrittenBack(cs[1..], if cs[0].remaining > 0 then rs[1..] else rs, i - 1);
    }
  }

  lemma {:induction false} ChargeRefunds(s: State, now: int, consumer: Settlement.Consumer, cost: int, capped: bool)
    requires Inv(s, now) && cost > 0
    ensures var r := Settlement.Charge(s, consumer, Settlement.Payable(s, consumer, cost, capped)); r.Ok? ==> RefundStep(s, r.value)
  {
    hide RefundStep, SameRefunds, KeyMoves, KeyOk, BooksOk, AccountsOk, PoolsAgree, EarningsOk, Remaining, SpendPool;
    var amount := Settlement.Payable(s, consumer, cost, capped);
    var r := Settlement.Charge(s, consumer, amount);
    match consumer {
      case Wallet(d) =>
        PostRow(s.books, d, Spent, -amount);
        SameKeys(s, r.value);
      case Share(issuer, k) =>
        if k in s.keys && s.keys[k].funded {
          var key := s.keys[k];
          Settlement.KeyBounds(key, now);
          SpendDraws(key, now, amount);
          OtherRow(s.books.rows, Row(issuer, PoolSpent(k), -amount));
          OneKey(s, r.value, k, key.(consumed := key.consumed + amount, contributions := SpendPool(key.contributions, amount)));
        } else {
          PostRow(s.books, issuer, Spent, -amount);
          if k in s.keys {
            var key := s.keys[k].(consumed := s.keys[k].consumed + amount);
            assert KeyMoves(s.keys[k], key) by { Consuming(s.keys[k], amount); }
            OneKey(s, r.value, k, key);
          } else {
            SameKeys(s, r.value);
          }
        }
      case ApiAccount(a, key) =>
        if r.Ok? {
          assert SameRefunds(s.books.rows, s.books.rows) by { NoRow(s.books.rows); }
          SameKeys(s, r.value);
        }
    }
  }

  lemma {:induction false} Consuming(key: ShareKey, amount: int)
    ensures KeyMoves(key, key.(consumed := key.consumed + amount))
  {}

  lemma {:induction false} NoRow(rows: seq<Row>)
    ensures SameRefunds(rows, rows)
  {}

  /** Plain rows after a step change nothing about refunds. */
  lemma {:induction false} ThenRows(s: State, t: State, u: State)
    requires RefundStep(s, t) && u.keys == t.keys && SameRefunds(t.books.rows, u.books.rows)
    ensures RefundStep(s, u)
  {
    hide RefundedTo, KeyMoves, Stake;
  }

  lemma {:induction false} SettlementRefunds(s: State, now: int, op: Op)
    requires Inv(s, now) && Apply(s, now, op).Ok? && (op.SettleFleet? || op.SettleProvider?)
    ensures RefundStep(s, Apply(s, now, op).value)
  {
    hide RefundStep, SameRefunds, Inv, Settlement.Payable, Settlement.Charge, Settlement.PayFleet, Settlement.Earn, Settlement.Recipients;
    var u := Apply(s, now, op).value;
    if op.cost <= 0 {
      assert SameRefunds(s.books.rows, s.books.rows) by { NoRow(s.books.rows); }
      SameKeys(s, s);
    } else if op.SettleFleet? {
      ChargeRefunds(s, now, op.consumer, op.cost, true);
      var amount := Settlement.Payable(s, op.consumer, op.cost, true);
      var t := Settlement.Charge(s, op.consumer, amount).value;
      PayFleetRows(t.books, op.provider, Settlement.Recipients(op.online, op.provider, Settlement.Payer(op.consumer)), amount);
      ThenRows(s, t, u);
    } else {
      ChargeRefunds(s, now, op.consumer, op.cost, false);
      var amount := Settlement.Payable(s, op.consumer, op.cost, false);
      var t := Settlement.Charge(s, op.consumer, amount).value;
      EarnRows(t.books, OPS, OpsFee, amount - Settlement.ProviderShareOf(amount));
      ThenRows(s, t, u);
    }
  }

  lemma {:induction false} FinalizeRows(s: State, rs: seq<Availability.Recipient>, order: seq<Device>)
    ensures var t := Availability.FinalizeStale(s, rs, order);
      t.keys == s.keys && SameRefunds(s.books.rows, t.books.rows) && SameFunding(s.books.rows, t.books.rows)
    decreases |order|
  {
    hide RefundedTo, PaidIn, Availability.StillMatching;
    if order != [] {
      var d := order[0];
      if d in s.sessions {
        OtherRow(s.books.rows, Row(d, AvailabilitySession, s.sessions[d].accrued));
      }
      FinalizeRows(Availability.FinalizeIfStale(s, rs, d), rs, order[1..]);
    }
  }

  lemma {:induction false} AccrueRows(s: State, rs: seq<Availability.Recipient>)
    ensures var t := Availability.AccrueAll(s, rs); t.keys == s.keys && t.books.rows == s.books.rows
    decreases |rs|
  {
    if rs != [] {
      AccrueRows(Availability.Accrue(s, rs[0]), rs[1..]);
    }
  }

  lemma {:induction false} ReconcileRows(s: State, rs: seq<Availability.Recipient>, order: seq<Device>)
    ensures LeavesPools(s, Availability.Reconcile(s, rs, order))
  {
    hide SameRefunds, SameFunding, Availability.FinalizeStale, Availability.AccrueAll, Availability.Needed;
    var t := Availability.FinalizeStale(s, rs, order);
    FinalizeRows(s, rs, order);
    AccrueRows(t.(mint := t.mint - Availability.Needed(rs)), rs);
  }

  // ---- share keys ----

  lemma {:induction false} MintRefunds(s: State, now: int, issuer: Device, k: KeyId, contribution: nat, expiresIn: int, budget: int)
    requires Mint(s, now, issuer, k, contribution, expiresIn, budget).Ok?
    ensures RefundStep(s, Mint(s, now, issuer, k, contribution, expiresIn, budget).value)
  {
    hide RefundStep, SameRefunds;
    var t := Mint(s, now, issuer, k, contribution, expiresIn, budget).value;
    PostRow(s.books, issuer, ShareKeyFund(k), -budget);
    OneKey(s, t, k, t.keys[k]);
  }

  lemma {:induction false} FundRefunds(s: State, now: int, sender: Device, k: KeyId, contribution: nat, amount: int)
    requires Inv(s, now) && Fund(s, now, sender, k, contribution, amount).Ok?
    ensures RefundStep(s, Fund(s, now, sender, k, contribution, amount).value)
  {
    hide RefundStep, SameRefunds, BooksOk, AccountsOk, PoolsAgree, EarningsOk;
    var t := Fund(s, now, sender, k, contribution, amount).value;
    PostRow(s.books, sender, ShareKeyFund(k), -amount);
    assert KeyOk(s.keys[k], now);
    OneKey(s, t, k, t.keys[k]);
  }

  lemma {:induction false} PayBackRows(b: Books, k: KeyId, cs: seq<Contribution>, j: KeyId, d: Device)
    requires forall i :: 0 <= i < |cs| ==> !cs[i].refunded && cs[i].remaining >= 0
    ensures RefundedTo(PayBack(b, k, cs).rows, j, d) == RefundedTo(b.rows, j, d) + (if j == k then Stake(cs, d) else 0)
    ensures PaidIn(PayBack(b, k, cs).rows, j, d) == PaidIn(b.rows, j, d)
    decreases |cs|
  {
    hide RefundedTo, PaidIn;
    if cs != [] {
      var c := cs[0];
      if c.remaining > 0 {
        RefundedAppend(b.rows, Row(c.funder, ShareKeyRefund(k), c.remaining), j, d);
        PaidAppend(b.rows, Row(c.funder, ShareKeyRefund(k), c.remaining), j, d);
      }
      PayBackRows(PayBackOne(b, k, c), k, cs[1..], j, d);
    }
  }

  /** Other keys are left alone by a refund, and this one settles with every stake paid. */
  lemma {:induction false} RefundRefunds(s: State, now: int, k: KeyId, key: ShareKey)
    requires KeysOk(s.keys, now) && k in s.keys && s.keys[k] == key.(revokedAt := s.keys[k].revokedAt)
    requires key.funded && !Settled(key)
    ensures RefundStep(s, Refund(s, k, key, now))
  {
    hide RefundedTo, KeyMoves, Stake, PayBack, Remaining;
    var t := Refund(s, k, key, now);
    assert KeyOk(s.keys[k], now);
    forall j, d ensures RefundedTo(t.books.rows, j, d) == RefundedTo(s.books.rows, j, d) + Due(s, t, j, d) {
      PayBackRows(s.books, k, key.contributions, j, d);
    }
    forall j | j in s.keys ensures KeyMoves(s.keys[j], t.keys[j]) {
      KeyStays(s.keys[j]);
      assert j == k ==> KeyMoves(s.keys[k], t.keys[k]) by { Settling(s.keys[k], t.keys[k]); }
    }
  }

  lemma {:induction false} Settling(key: ShareKey, key': ShareKey)
    requires !Settled(key) && Settled(key')
    ensures KeyMoves(key, key')
  {}

  lemma {:induction false} RevokeRefunds(s: State, now: int, issuer: Device, k: KeyId)
    requires Inv(s, now) && Revoke(s, now, issuer, k).Ok?
    ensures RefundStep(s, Revoke(s, now, issuer, k).value)
  {
    hide RefundStep, SameRefunds, BooksOk, AccountsOk, PoolsAgree, EarningsOk, KeysOk, Refund;
    var key := s.keys[k].(revokedAt := Some(now));
    if key.funded && !Settled(key) {
      RefundRefunds(s, now, k, key);
    } else {
      assert SameRefunds(s.books.rows, s.books.rows) by { NoRow(s.books.rows); }
      OneKey(s, s.(keys := s.keys[k := key]), k, key);
    }
  }

  /** Keys either stay exactly as they are or settle. */
  ghost predicate OnlySettles(s: State, t: State) {
    t.keys.Keys == s.keys.Keys && forall k :: k in s.keys ==> t.keys[k] == s.keys[k] || Settles(s, t, k)
  }

  lemma {:induction false} Compose(s: State, t: State, u: State)
    requires RefundStep(s, t) && OnlySettles(s, t) && RefundStep(t, u) && OnlySettles(t, u)
    ensures RefundStep(s, u) && OnlySettles(s, u)
  {
    hide RefundedTo, Stake, Drawn;
    forall k, d ensures Due(s, u, k, d) == Due(s, t, k, d) + Due(t, u, k, d) {}
  }

  lemma {:induction false} RefundExpiredRefunds(s: State, now: int, order: seq<KeyId>)
    requires Inv(s, now)
    ensures RefundStep(s, RefundExpired(s, now, order)) && OnlySettles(s, RefundExpired(s, now, order))
    decreases |order|
  {
    hide Inv, RefundStep, SameRefunds, Credits;
    assert RefundStep(s, s) by {
      assert SameRefunds(s.books.rows, s.books.rows) by { NoRow(s.books.rows); }
      SameKeys(s, s);
    }
    if order != [] {
      var k := order[0];
      var t := RefundIfDue(s, now, k);
      if k in s.keys && Refundable(s.keys[k], now) {
        RefundReturnsStakes(s, now, k, s.keys[k]);
        assert KeysOk(s.keys, now) by { InvKeys(s, now); }
        RefundRefunds(s, now, k, s.keys[k]);
      }
      RefundExpiredRefunds(t, now, order[1..]);
      Compose(s, t, RefundExpired(s, now, order));
    }
  }

  lemma {:induction false} InvKeys(s: State, now: int)
    requires Inv(s, now)
    ensures KeysOk(s.keys, now)
  {}

  lemma {:induction false} MigrateRows(s: State, now: int, order: seq<(KeyId, nat)>)
    requires Migrate(s, now, order).Ok?
    ensures var t := Migrate(s, now, order).value;
      && SameRefunds(s.books.rows, t.books.rows) && t.keys.Keys == s.keys.Keys
      && forall k :: k in s.keys && s.keys[k].funded ==> t.keys[k] == s.keys[k]
    decreases |order|
  {
    hide RefundedTo, Migrated;
    if order != [] {
      var (k, contribution) := order[0];
      if k !in s.keys || s.keys[k].funded {
        MigrateRows(s, now, order[1..]);
      } else {
        var t := MigrateOne(s, now, k, contribution).value;
        var (key, debit) := Migrated(s.keys[k], now, contribution, Get(s.books.balances, s.keys[k].issuer));
        PostRow(s.books, key.issuer, ShareKeyFund(k), -debit);
        MigrateRows(t, now, order[1..]);
      }
    }
  }

  lemma {:induction false} MigrateRefunds(s: State, now: int, order: seq<(KeyId, nat)>)
    requires Inv(s, now) && Migrate(s, now, order).Ok?
    ensures RefundStep(s, Migrate(s, now, order).value)
  {
    hide RefundedTo, Migrate, BooksOk, AccountsOk, PoolsAgree, EarningsOk, Remaining;
    var t := Migrate(s, now, order).value;
    MigrateRows(s, now, order);
    forall k | k in s.keys ensures KeyMoves(s.keys[k], t.keys[k]) && (Settles(s, t, k) ==> s.keys[k].contributions == []) {
      assert KeyOk(s.keys[k], now);
    }
  }

  // ---- runs ----

  lemma {:induction false} StepRefunds(s: State, now: int, op: Op)
    requires Inv(s, now)
    ensures RefundStep(s, Step(s, now, op))
  {
    hide Apply, Inv, RefundStep, SameRefunds, SameFunding;
    if Apply(s, now, op).Err? {
      assert SameRefunds(s.books.rows, s.books.rows) by { NoRow(s.books.rows); }
      SameKeys(s, s);
    } else if WalletOnly(op) {
      PlainOpRows(s, now, op);
      SameKeys(s, Apply(s, now, op).value);
    } else if op.SettleFleet? || op.SettleProvider? {
      SettlementRefunds(s, now, op);
    } else {
      ShareOpRefunds(s, now, op);
    }
  }

  lemma {:induction false} ShareOpRefunds(s: State, now: int, op: Op)
    requires Inv(s, now) && Apply(s, now, op).Ok? && !WalletOnly(op) && !op.SettleFleet? && !op.SettleProvider?
    ensures RefundStep(s, Apply(s, now, op).value)
  {
    hide Inv, RefundStep, SameRefunds, SameFunding, SharePools.Migrate, SharePools.RefundExpired, Availability.Reconcile;
    match op
    case ReconcileAvailability(recipients, listed) =>
      ReconcileRows(s, recipients, listed);
      SameKeys(s, Availability.Reconcile(s, recipients, listed));
    case MintKey(issuer, key, contribution, expiresIn, budget) => MintRefunds(s, now, issuer, key, contribution, expiresIn, budget);
    case FundKey(sender, key, contribution, amount) => FundRefunds(s, now, sender, key, contribution, amount);
    case RevokeKey(issuer, key) => RevokeRefunds(s, now, issuer, key);
    case RefundExpiredKeys(keys) => RefundExpiredRefunds(s, now, keys);
    case MigrateKeys(legacy) => MigrateRefunds(s, now, legacy);
  }

  predicate SettledIn(s: State, k: KeyId) { k in s.keys && Settled(s.keys[k]) }

  /** Step i settles key k, and over the whole run each funder is paid back their stake in the state before that step. */
  ghost predicate PaidBackAt(s: State, trace: Trace, k: KeyId, i: nat)
    requires i < |trace|
  {
    var before := Run(s, trace[..i]);
    && Settles(before, Run(s, trace[..i + 1]), k)
    && forall d :: RefundedTo(Run(s, trace).books.rows, k, d) == RefundedTo(s.books.rows, k, d) + Stake(before.keys[k].contributions, d)
  }

  /**
   In every run a key that starts unsettled pays nothing back until one step settles it, and from then on the ledger shows
   each funder paid back exactly once, by what was left of their contributions just before that step.
   */
  lemma {:induction false} RefundedOnce(s: State, start: int, trace: Trace, k: KeyId)
    requires Inv(s, start) && Forward(start, trace) && Covers(s, trace) && !SettledIn(s, k)
    ensures !SettledIn(Run(s, trace), k) ==>
      forall d :: RefundedTo(Run(s, trace).books.rows, k, d) == RefundedTo(s.books.rows, k, d)
    ensures SettledIn(Run(s, trace), k) ==> exists i :: 0 <= i < |trace| && PaidBackAt(s, trace, k, i)
  {
    hide Inv, RefundedTo, Stake, Step, StepOk, KeyMoves;
    if trace != [] {
      var n := |trace| - 1;
      var init, now, op := trace[..n], trace[n].0, trace[n].1;
      var p, t := Run(s, init), Run(s, trace);
      RefundedOnce(s, start, init, k);
      assert Inv(p, now) by {
        RunsConserve(s, start, init);
        StepOkInv(s, p, End(start, init), RunFlow(s, init));
        InvLater(p, End(start, init), now);
      }
      StepRefunds(p, now, op);
      assert trace[..n + 1] == trace;
      if SettledIn(p, k) {
        var i :| 0 <= i < |init| && PaidBackAt(s, init, k, i);
        assert init[..i] == trace[..i] && init[..i + 1] == trace[..i + 1];
        assert SettledIn(t, k) by { StaysSettled(p.keys[k], t.keys[k]); }
        assert PaidBackAt(s, trace, k, i);
      } else if SettledIn(t, k) {
        assert k in p.keys;
        assert PaidBackAt(s, trace, k, n);
      }
    }
  }

  lemma {:induction false} StaysSettled(key: ShareKey, key': ShareKey)
    requires KeyMoves(key, key') && Settled(key)
    ensures Settled(key')
  {}

}
