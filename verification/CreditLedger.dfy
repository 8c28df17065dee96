/** The credit ledger as the gateway runs it: one method per locked function, updating the tables in place. */
module CreditLedger {
  import opened Prelude
  import opened Credit
  import Apportionment
  import SharePools
  import Settlement
  import Wallets
  import Availability
  import Withdrawals

  ghost predicate AccountsReport(r: Result<(), Error>, o: Withdrawals.AccountsOutcome, before: State, after: State) {
    match o
    case Ok(a) => r == Ok(()) && after == before.(accounts := a)
    case Err(e) => r == Err(e) && after == before
  }

  class Ledger {
    var devices: set<Device>
    var balances: map<Device, int>
    var rows: seq<Row>
    var sessions: map<Device, Session>
    var mint: int
    var keys: map<KeyId, ShareKey>
    var wallets: map<Account, Wallet>
    var links: map<Device, Account>
    var apiKeys: map<string, ApiKey>
    var withdrawals: map<string, Withdrawal>
    var deposits: map<string, Deposit>
    var providers: set<Provider>
    var earnings: map<Provider, int>

    ghost function DeviceBooks(): Books
      reads this
    {
      Credit.Books(balances, rows)
    }

    ghost function AccountTables(): Accounts
      reads this
    {
      Credit.Accounts(wallets, links, apiKeys, withdrawals, deposits)
    }

    ghost function Tables(): State
      reads this
    {
      State(devices, DeviceBooks(), sessions, mint, keys, AccountTables(), providers, earnings)
    }

    /** A fresh database with its seeded mint pool. */
    constructor (initialMint: nat)
      ensures Inv(Tables(), 0) && Credits(Tables()) == 0
    {
      devices, balances, rows, sessions, mint := {}, map[], [], map[], initialMint;
      keys, wallets, links, apiKeys := map[], map[], map[], map[];
      withdrawals, deposits, providers, earnings := map[], map[], {}, map[];
    }

    /** INSERT OR IGNORE, UPDATE balances, INSERT INTO ledger. */
    method PostEntry(d: Device, kind: Kind, amount: int)
      modifies this`balances, this`rows
      ensures DeviceBooks() == Post(old(DeviceBooks()), d, kind, amount)
    {
      if d !in balances {
        balances := balances[d := 0];
      }
      balances := balances[d := balances[d] + amount];
      rows := rows + [Row(d, kind, amount)];
    }

    method EnsureBalance(d: Device)
      modifies this`balances
      ensures balances == Touch(old(DeviceBooks()), d).balances
    {
      if d !in balances {
        balances := balances[d := 0];
      } else {
        assert balances == balances[d := balances[d]];
      }
    }

    // ---- minting, linking, moving ----

    method UpsertDevice(d: Device)
      modifies this`devices, this`balances
      ensures Tables() == Wallets.Upsert(old(Tables()), d)
    {
      if d in devices {
        return;
      }
      devices := devices + {d};
      EnsureBalance(d);
    }

    method RecordBonus(d: Device, amount: int) returns (r: Result<(), Error>)
      modifies this
      ensures Reports(r, Wallets.GrantBonus(old(Tables()), d, amount), old(Tables()), Tables())
    {
      if d !in balances {
        return Err(NotFound);
      }
      mint := Max(0, mint - amount);
      PostEntry(d, Bonus, amount);
      return Ok(());
    }

    method AdminMint(d: Device, amount: int) returns (r: Result<(), Error>)
      modifies this
      ensures Reports(r, Wallets.MintTo(old(Tables()), d, amount), old(Tables()), Tables())
    {
      if amount <= 0 {
        return Err(InvalidAmount);
      }
      devices := devices + {d};
      mint := Max(0, mint - amount);
      PostEntry(d, Kind.AdminMint, amount);
      return Ok(());
    }

    method LinkDeviceToAccount(d: Device, a: Account)
      modifies this
      ensures Tables() == Wallets.Link(old(Tables()), d, a)
    {
      devices := devices + {d};
      EnsureBalance(d);
      if a !in wallets {
        wallets := wallets[a := Wallets.NewWallet()];
      }
      links := links[d := a];
    }

    method RemoveDeviceFromAccount(requester: Device, d: Device) returns (r: Result<(), Error>)
      modifies this`links
      ensures Reports(r, Wallets.Unlink(old(Tables()), requester, d), old(Tables()), Tables())
    {
      if requester == d {
        return Err(InvalidAmount);
      }
      if requester !in links || d !in links || links[d] != links[requester] {
        return Err(NotLinked);
      }
      links := links - {d};
      return Ok(());
    }

    method RecordAccountBonus(a: Account, amount: int) returns (r: Result<(), Error>)
      modifies this`mint, this`wallets
      ensures Reports(r, Wallets.GrantAccountBonus(old(Tables()), a, amount), old(Tables()), Tables())
    {
      if a !in wallets {
        return Err(ConstraintFailed);
      }
      mint := Max(0, mint - amount);
      PayWallet(a, amount);
      return Ok(());
    }

    method PayWallet(a: Account, amount: int)
      requires a in wallets
      modifies this`wallets
      ensures AccountTables() == PayAccount(old(AccountTables()), a, amount)
    {
      wallets := wallets[a := wallets[a].(balance := wallets[a].balance + amount)];
    }

    method TransferFromDeviceWallet(sender: Device, target: Wallets.Target, amount: int) returns (r: Result<(), Error>)
      modifies this
      ensures Reports(r, Wallets.TransferFromDevice(old(Tables()), sender, target, amount), old(Tables()), Tables())
    {
      if amount <= 0 {
        return Err(InvalidAmount);
      }
      if Get(balances, sender) < amount {
        return Err(InsufficientBalance);
      }
      match target {
        case ToDevice(d) =>
          if d !in devices {
            return Err(NotFound);
          }
          if d == sender {
            return Err(SameWallet);
          }
          PostEntry(sender, TransferOut, -amount);
          PostEntry(d, TransferIn, amount);
        case ToAccount(a) =>
          if a !in wallets {
            return Err(NotFound);
          }
          PostEntry(sender, TransferOut, -amount);
          PayWallet(a, amount);
      }
      return Ok(());
    }

    method TransferFromAccountWallet(sender: Account, target: Wallets.Target, amount: int) returns (r: Result<(), Error>)
      modifies this
      ensures Reports(r, Wallets.TransferFromAccount(old(Tables()), sender, target, amount), old(Tables()), Tables())
    {
      if amount <= 0 {
        return Err(InvalidAmount);
      }
      if sender !in wallets {
        return Err(NotLinked);
      }
      if wallets[sender].balance < amount {
        return Err(InsufficientBalance);
      }
      match target {
        case ToDevice(d) =>
          if d !in devices {
            return Err(NotFound);
          }
          PayWallet(sender, -amount);
          PostEntry(d, TransferIn, amount);
        case ToAccount(a) =>
          if a !in wallets {
            return Err(NotFound);
          }
          if a == sender {
            return Err(SameWallet);
          }
          PayWallet(sender, -amount);
          PayWallet(a, amount);
      }
      return Ok(());
    }

    method SweepDeviceToAccount(requester: Device, d: Device) returns (r: Result<(), Error>)
      modifies this
      ensures Reports(r, Wallets.Sweep(old(Tables()), requester, d), old(Tables()), Tables())
    {
      if requester !in links || d !in links || links[d] != links[requester] {
        return Err(NotLinked);
      }
      if links[d] !in wallets {
        return Err(ConstraintFailed);
      }
      EnsureBalance(d);
      var amount := balances[d];
      if amount > 0 {
        PostEntry(d, SweepOut, -amount);
        PayWallet(links[d], amount);
        assert DeviceBooks() == Post(old(DeviceBooks()), d, SweepOut, -amount);
      }
      return Ok(());
    }

    // ---- settlement ----

    /** The whole split of a charge over the fleet. */
    method PayFleet(provider: Option<Device>, recipients: seq<Device>, amount: int)
      modifies this`balances, this`rows
      ensures DeviceBooks() == Settlement.PayFleet(old(DeviceBooks()), provider, recipients, amount)
    {
      var directEarn := amount * 70 / 100;
      var poolShare := amount * 25 / 100;
      var opsFee := amount - directEarn - poolShare;
      var perPeer := if |recipients| == 0 then 0 else poolShare / |recipients|;
      var leftover := poolShare - perPeer * |recipients|;
      if provider.Some? && directEarn > 0 {
        PostEntry(provider.value, DirectEarn, directEarn);
      }
      if perPeer > 0 {
        ghost var goal := PostAll(DeviceBooks(), recipients, AvailabilityEarn, perPeer);
        for i := 0 to |recipients|
          modifies this`balances, this`rows
          invariant PostAll(DeviceBooks(), recipients[i..], AvailabilityEarn, perPeer) == goal
        {
          assert recipients[i..][0] == recipients[i] && recipients[i..][1..] == recipients[i + 1..];
          PostEntry(recipients[i], AvailabilityEarn, perPeer);
        }
      }
      if opsFee + leftover > 0 {
        PostEntry(OPS, OpsFee, opsFee + leftover);
      }
    }

    /** Online devices without the provider and the payer. */
    method Eligible(online: seq<Device>, provider: Option<Device>, payer: Option<Device>) returns (recipients: seq<Device>)
      ensures recipients == Settlement.Recipients(online, provider, payer)
    {
      recipients := [];
      for i := 0 to |online|
        invariant recipients + Settlement.Recipients(online[i..], provider, payer) == Settlement.Recipients(online, provider, payer)
      {
        hide Settlement.Recipients;
        assert online[i..][0] == online[i] && online[i..][1..] == online[i + 1..];
        Settlement.RecipientsStep(recipients, online[i..], provider, payer);
        if Some(online[i]) != provider && Some(online[i]) != payer {
          recipients := recipients + [online[i]];
        }
      }
    }

    /** The consumer's side of a settlement. */
    method ChargeConsumer(consumer: Settlement.Consumer, amount: int) returns (r: Result<(), Error>)
      modifies this
      ensures Reports(r, Settlement.Charge(old(Tables()), consumer, amount), old(Tables()), Tables())
    {
      match consumer {
        case Wallet(d) => PostEntry(d, Spent, -amount);
        case Share(issuer, k) =>
          if k in keys && keys[k].funded {
            SpendFromPool(issuer, k, amount);
          } else {
            PostEntry(issuer, Spent, -amount);
            if k in keys {
              keys := keys[k := keys[k].(consumed := keys[k].consumed + amount)];
            }
          }
        case ApiAccount(a, key) =>
          r := ChargeAccount(a, key, amount);
          return;
      }
      return Ok(());
    }

    /** An account pays, and its API key's usage grows. */
    method ChargeAccount(a: Account, key: Option<string>, amount: int) returns (r: Result<(), Error>)
      modifies this`wallets, this`apiKeys
      ensures Reports(r, Settlement.Charge(old(Tables()), Settlement.ApiAccount(a, key), amount), old(Tables()), Tables())
    {
      if a !in wallets || (key.Some? && key.value !in apiKeys) {
        return Err(ConstraintFailed);
      }
      PayWallet(a, -amount);
      if key.Some? {
        apiKeys := apiKeys[key.value := apiKeys[key.value].(usage := apiKeys[key.value].usage + amount)];
      }
      return Ok(());
    }

    /** A funded key pays: an audit row, the key's ticker, and the contributions. */
    method SpendFromPool(issuer: Device, k: KeyId, amount: int)
      requires k in keys
      modifies this`balances, this`rows, this`keys
      ensures Tables() == SharePools.SpendKey(old(Tables()), issuer, k, amount)
    {
      hide SharePools.SpendPool;
      EnsureBalance(issuer);
      rows := rows + [Row(issuer, PoolSpent(k), -amount)];
      keys := keys[k := keys[k].(consumed := keys[k].consumed + amount)];
      ApplyProRataSpend(k, amount);
      assert keys == SharePools.SpendKey(old(Tables()), issuer, k, amount).keys;
    }

    /** Reduces a key's contributions pro rata. */
    method ApplyProRataSpend(k: KeyId, spend: int)
      requires k in keys
      modifies this`keys
      ensures keys == old(keys)[k := old(keys)[k].(contributions := SharePools.SpendPool(old(keys)[k].contributions, spend))]
    {
      hide Apportionment.Reductions;
      var cs := keys[k].contributions;
      var shares := LiveShares(cs);
      if spend <= 0 || shares == [] {
        assert keys == keys[k := keys[k].(contributions := cs)];
        return;
      }
      var reductions := Apportionment.ProRata(shares, spend);
      var updated := WriteReductions(cs, reductions);
      keys := keys[k := keys[k].(contributions := updated)];
    }

    static method LiveShares(cs: seq<Contribution>) returns (shares: seq<Apportionment.Share>)
      ensures shares == SharePools.Shares(cs)
    {
      shares := [];
      for i := 0 to |cs|
        invariant shares + SharePools.Shares(cs[i..]) == SharePools.Shares(cs)
      {
        hide SharePools.Shares;
        assert cs[i..][0] == cs[i] && cs[i..][1..] == cs[i + 1..];
        SharePools.SharesSplit(shares, cs[i..]);
        if cs[i].remaining > 0 {
          shares := shares + [Apportionment.Share(cs[i].id, cs[i].remaining, cs[i].createdAt)];
        }
      }
    }

    static method WriteReductions(cs: seq<Contribution>, rs: seq<int>) returns (updated: seq<Contribution>)
      requires |rs| == |SharePools.Shares(cs)|
      ensures updated == SharePools.WriteBack(cs, rs)
    {
      updated := [];
      var rest, left := cs, rs;
      while rest != []
        invariant |left| == |SharePools.Shares(rest)|
        invariant updated + SharePools.WriteBack(rest, left) == SharePools.WriteBack(cs, rs)
        decreases |rest|
      {
        SharePools.WriteBackStep(updated, rest, left);
        if rest[0].remaining > 0 {
          updated := updated + [rest[0].(remaining := Max(0, rest[0].remaining - left[0]))];
          left := left[1..];
        } else {
          updated := updated + [rest[0]];
        }
        rest := rest[1..];
      }
    }

    method SettleRequest(consumer: Settlement.Consumer, provider: Option<Device>, online: seq<Device>, cost: int)
      returns (r: Result<(), Error>)
      modifies this
      ensures Reports(r, Settlement.SettleFleet(old(Tables()), consumer, provider, online, cost), old(Tables()), Tables())
    {
      hide Settlement.Charge, Settlement.PayFleet;
      if cost <= 0 {
        return Ok(());
      }
      var amount := EffectiveCost(consumer, cost, true);
      r := ChargeConsumer(consumer, amount);
      if r.Ok? {
        var recipients := Eligible(online, provider, Settlement.Payer(consumer));
        PayFleet(provider, recipients, amount);
      }
    }

    /** What the payer can cover, re-read under the lock. */
    method EffectiveCost(consumer: Settlement.Consumer, cost: int, capped: bool) returns (amount: int)
      ensures amount == Settlement.Payable(Tables(), consumer, cost, capped)
    {
      match consumer {
        case Wallet(d) => amount := Min(cost, Max(Get(balances, d), 0));
        case Share(issuer, k) =>
          if k in keys && keys[k].funded {
            var remaining := SumContributions(keys[k].contributions);
            amount := Min(cost, Max(remaining, 0));
          } else {
            var left := if k in keys then keys[k].budget - keys[k].consumed else 0;
            amount := Min(Min(cost, Max(Get(balances, issuer), 0)), Max(left, 0));
          }
        case ApiAccount(a, key) =>
          amount := Min(cost, Max(if a in wallets then wallets[a].balance else 0, 0));
          if capped && key.Some? && key.value in apiKeys && apiKeys[key.value].limit.Some? {
            amount := Min(amount, Max(apiKeys[key.value].limit.value - apiKeys[key.value].usage, 0));
          }
      }
    }

    /** SELECT SUM(remaining_credits). */
    static method SumContributions(cs: seq<Contribution>) returns (sum: int)
      ensures sum == Remaining(cs)
    {
      sum := 0;
      for i := 0 to |cs|
        invariant sum + Remaining(cs[i..]) == Remaining(cs)
      {
        assert cs[i..][0] == cs[i] && cs[i..][1..] == cs[i + 1..];
        sum := sum + cs[i].remaining;
      }
    }

    method SettleProviderRequest(consumer: Settlement.Consumer, provider: Provider, cost: int) returns (r: Result<(), Error>)
      modifies this
      ensures Reports(r, Settlement.SettleProvider(old(Tables()), consumer, provider, cost), old(Tables()), Tables())
    {
      hide Settlement.Charge, Settlement.Payable;
      if cost <= 0 {
        return Ok(());
      }
      var amount := EffectiveCost(consumer, cost, false);
      var earned := amount * 95 / 100;
      var fails := ChargeFails(consumer);
      if fails {
        return Err(ConstraintFailed);
      }
      if earned > 0 && provider !in providers {
        return Err(ConstraintFailed);
      }
      r := ChargeConsumer(consumer, amount);
      ghost var charged := Tables();
      assert charged == Settlement.Charge(old(Tables()), consumer, amount).value && r == Ok(());
      if earned > 0 {
        earnings := earnings[provider := Get(earnings, provider) + earned];
      }
      if amount - earned > 0 {
        PostEntry(OPS, OpsFee, amount - earned);
      }
      assert DeviceBooks() == Settlement.Earn(charged.books, OPS, OpsFee, amount - earned);
      assert Tables() == charged.(earnings := earnings, books := DeviceBooks());
    }

    /** Whether a charge would break a foreign key. */
    method ChargeFails(consumer: Settlement.Consumer) returns (fails: bool)
      ensures forall amount :: Settlement.Charge(Tables(), consumer, amount) == Err(ConstraintFailed) <==> fails
      ensures forall amount :: Settlement.Charge(Tables(), consumer, amount).Err? <==> fails
    {
      match consumer
      case ApiAccount(a, key) => fails := a !in wallets || (key.Some? && key.value !in apiKeys);
      case _ => fails := false;
    }

    method RecordProviderPayout(provider: Provider, amount: int) returns (r: Result<(), Error>)
      modifies this`earnings
      ensures Reports(r, Settlement.Payout(old(Tables()), provider, amount), old(Tables()), Tables())
    {
      if amount <= 0 {
        return Err(InvalidAmount);
      }
      var balance := Get(earnings, provider);
      if amount > balance {
        return Err(InsufficientBalance);
      }
      earnings := earnings[provider := balance - amount];
      return Ok(());
    }

    // ---- share keys ----

    method MintShareKey(now: int, issuer: Device, k: KeyId, contribution: nat, expiresIn: int, budget: int)
      returns (r: Result<(), Error>)
      modifies this
      ensures Reports(r, SharePools.Mint(old(Tables()), now, issuer, k, contribution, expiresIn, budget), old(Tables()), Tables())
    {
      if !(SharePools.MIN_EXPIRES_IN <= expiresIn <= SharePools.MAX_EXPIRES_IN) {
        return Err(InvalidAmount);
      }
      if !(SharePools.MIN_BUDGET <= budget <= SharePools.MAX_BUDGET) {
        return Err(InvalidAmount);
      }
      var active := set j | j in keys && SharePools.Active(keys[j], issuer, now);
      if |active| >= SharePools.MAX_ACTIVE_PER_ISSUER {
        return Err(TooManyKeys);
      }
      if Get(balances, issuer) < budget {
        return Err(InsufficientBalance);
      }
      if k in keys || issuer !in devices {
        return Err(ConstraintFailed);
      }
      var first := Contribution(contribution, issuer, budget, budget, now, false);
      keys := keys[k := ShareKey(issuer, now + expiresIn, budget, 0, None, true, None, [first])];
      PostEntry(issuer, ShareKeyFund(k), -budget);
      return Ok(());
    }

    method TransferToShareKey(now: int, sender: Device, k: KeyId, contribution: nat, amount: int) returns (r: Result<(), Error>)
      modifies this
      ensures Reports(r, SharePools.Fund(old(Tables()), now, sender, k, contribution, amount), old(Tables()), Tables())
    {
      if amount <= 0 {
        return Err(InsufficientBalance);
      }
      if k !in keys {
        return Err(NotFound);
      }
      if keys[k].revokedAt.Some? {
        return Err(Revoked);
      }
      if keys[k].expiresAt <= now {
        return Err(Expired);
      }
      if !keys[k].funded {
        return Err(NotMigrated);
      }
      if Get(balances, sender) < amount {
        return Err(InsufficientBalance);
      }
      devices := devices + {sender};
      PostEntry(sender, ShareKeyFund(k), -amount);
      Contribute(k, Contribution(contribution, sender, amount, amount, now, false));
      return Ok(());
    }

    /** A key's budget raised by a contribution, and the contribution recorded. */
    method Contribute(k: KeyId, more: Contribution)
      requires k in keys
      modifies this`keys
      ensures keys == old(keys)[k := old(keys)[k].(budget := old(keys)[k].budget + more.funded,
                                                   contributions := old(keys)[k].contributions + [more])]
    {
      keys := keys[k := keys[k].(budget := keys[k].budget + more.funded)];
      keys := keys[k := keys[k].(contributions := keys[k].contributions + [more])];
    }

    /** Pays every open contribution back to its funder and closes it. */
    method RefundContributions(k: KeyId)
      requires k in keys
      modifies this`balances, this`rows, this`keys
      ensures DeviceBooks() == SharePools.PayBack(old(DeviceBooks()), k, old(keys)[k].contributions)
      ensures keys == old(keys)[k := old(keys)[k].(contributions := SharePools.Closed(old(keys)[k].contributions))]
    {
      var cs := keys[k].contributions;
      var closed: seq<Contribution> := [];
      for i := 0 to |cs|
        modifies this`balances, this`rows
        invariant keys == old(keys) && closed == SharePools.Closed(cs)[..i]
        invariant SharePools.PayBack(DeviceBooks(), k, cs[i..]) == SharePools.PayBack(old(DeviceBooks()), k, cs)
      {
        assert cs[i..][0] == cs[i] && cs[i..][1..] == cs[i + 1..];
        var c := cs[i];
        if c.refunded {
          closed := closed + [c];
        } else {
          if c.remaining > 0 {
            PostEntry(c.funder, ShareKeyRefund(k), c.remaining);
          } else {
            EnsureBalance(c.funder);
          }
          closed := closed + [c.(remaining := 0, refunded := true)];
        }
      }
      assert closed == SharePools.Closed(cs);
      keys := keys[k := keys[k].(contributions := closed)];
    }

    method RevokeShareKey(now: int, issuer: Device, k: KeyId) returns (r: Result<(), Error>)
      modifies this
      ensures Reports(r, SharePools.Revoke(old(Tables()), now, issuer, k), old(Tables()), Tables())
    {
      if k !in keys || keys[k].issuer != issuer || keys[k].revokedAt.Some? {
        return Err(NotFound);
      }
      keys := keys[k := keys[k].(revokedAt := Some(now))];
      if keys[k].funded && keys[k].settledAt.None? {
        RefundContributions(k);
        keys := keys[k := keys[k].(settledAt := Some(now))];
      }
      return Ok(());
    }

    /** Settles every expired key; `order` lists them as the query did. */
    method RefundExpiredShareKeys(now: int) returns (order: seq<KeyId>)
      modifies this
      ensures Tables() == SharePools.RefundExpired(old(Tables()), now, order)
      ensures forall k :: k in keys ==> !SharePools.RunOut(keys[k], now)
    {
      var due := set k | k in keys && SharePools.Refundable(keys[k], now);
      order := [];
      while due != {}
        invariant forall k :: k in due <==> k in keys && SharePools.Refundable(keys[k], now)
        invariant Tables() == SharePools.RefundExpired(old(Tables()), now, order)
        decreases due
      {
        hide SharePools.Refund, SharePools.RefundExpired;
        var k :| k in due;
        RefundAndSettle(k, now);
        SharePools.RefundExpiredSnoc(old(Tables()), now, order, k);
        order := order + [k];
        due := due - {k};
      }
    }

    method RefundAndSettle(k: KeyId, now: int)
      requires k in keys
      modifies this`balances, this`rows, this`keys
      ensures Tables() == SharePools.Refund(old(Tables()), k, old(keys)[k], now)
      ensures keys.Keys == old(keys).Keys && keys[k].settledAt.Some? && forall j :: j in keys && j != k ==> keys[j] == old(keys)[j]
    {
      RefundContributions(k);
      keys := keys[k := keys[k].(settledAt := Some(now))];
    }

    /** Funds every legacy key; one impossible budget undoes the whole pass. */
    method MigrateUnfundedShareKeys(now: int, freshId: KeyId -> nat) returns (r: Result<(), Error>, order: seq<(KeyId, nat)>)
      modifies this`balances, this`rows, this`keys
      ensures Reports(r, SharePools.Migrate(old(Tables()), now, order), old(Tables()), Tables())
      ensures r.Ok? ==> forall k :: k in keys ==> keys[k].funded
    {
      hide SharePools.MigrateOne;
      var savedBalances, savedRows, savedKeys := balances, rows, keys;
      var due := set k | k in keys && !keys[k].funded;
      order := [];
      while due != {}
        modifies this`balances, this`rows, this`keys
        invariant forall k :: k in due <==> k in keys && !keys[k].funded
        invariant SharePools.Migrate(old(Tables()), now, order) == Ok(Tables())
        decreases due
      {
        var k :| k in due;
        SharePools.MigrateSnoc(old(Tables()), now, order, k, freshId(k));
        order := order + [(k, freshId(k))];
        var one := MigrateShareKey(now, k, freshId(k));
        if one.Err? {
          balances, rows, keys := savedBalances, savedRows, savedKeys;
          return one, order;
        }
        due := due - {k};
      }
      return Ok(()), order;
    }

    method MigrateShareKey(now: int, k: KeyId, contribution: nat) returns (r: Result<(), Error>)
      requires k in keys && !keys[k].funded
      modifies this`balances, this`rows, this`keys
      ensures Reports(r, SharePools.MigrateOne(old(Tables()), now, k, contribution), old(Tables()), Tables())
      ensures r.Ok? ==> keys.Keys == old(keys).Keys && keys[k].funded && forall j :: j in keys && j != k ==> keys[j] == old(keys)[j]
    {
      var key := keys[k];
      if key.revokedAt.Some? || key.expiresAt <= now {
        var at := if key.revokedAt.Some? then key.revokedAt.value else now;
        var created := if key.revokedAt.Some? then key.revokedAt.value else key.expiresAt;
        var closed := Contribution(contribution, key.issuer, Max(key.budget, 1), 0, created, true);
        keys := keys[k := key.(funded := true, settledAt := Some(at), contributions := [closed])];
        return Ok(());
      }
      var owed := Max(key.budget - key.consumed, 0);
      if owed == 0 {
        var spent := Contribution(contribution, key.issuer, Max(key.budget, 1), 0, now, false);
        keys := keys[k := key.(funded := true, contributions := [spent])];
        return Ok(());
      }
      r := FundLegacyKey(now, k, contribution, owed);
    }

    /** The issuer pays what they can of what a live key still owes. */
    method FundLegacyKey(now: int, k: KeyId, contribution: nat, owed: int) returns (r: Result<(), Error>)
      requires k in keys && !keys[k].funded && keys[k].revokedAt.None? && keys[k].expiresAt > now
      requires owed == keys[k].budget - keys[k].consumed > 0
      modifies this`balances, this`rows, this`keys
      ensures Reports(r, SharePools.MigrateOne(old(Tables()), now, k, contribution), old(Tables()), Tables())
      ensures r.Ok? ==> keys.Keys == old(keys).Keys && keys[k].funded && forall j :: j in keys && j != k ==> keys[j] == old(keys)[j]
    {
      var key := keys[k];
      var debit := Min(owed, Max(Get(balances, key.issuer), 0));
      var budget := key.consumed + debit;
      if budget < key.budget && budget <= 0 {
        return Err(ConstraintFailed);
      }
      if debit > 0 {
        PostEntry(key.issuer, ShareKeyFund(k), -debit);
      } else {
        EnsureBalance(key.issuer);
      }
      var open := Contribution(contribution, key.issuer, Max(debit, 1), debit, now, false);
      keys := keys[k := key.(funded := true, budget := budget, contributions := [open])];
      return Ok(());
    }

    // ---- availability ----

    /** One tick of the drip; `listed` is the order in which open sessions were read. */
    method ReconcileAvailabilitySessions(recipients: seq<Availability.Recipient>) returns (listed: seq<Device>)
      modifies this
      ensures Tables() == Availability.Reconcile(old(Tables()), recipients, listed)
      ensures forall d :: d in old(sessions) ==> d in listed
    {
      hide Availability.FinalizeStale, Availability.AccrueAll;
      listed := FinalizeSessions(recipients);
      var needed := TotalNeeded(recipients);
      if needed > 0 {
        if mint < needed {
          return;
        }
        mint := mint - needed;
      }
      AccrueCredits(recipients);
    }

    static method TotalNeeded(recipients: seq<Availability.Recipient>) returns (needed: nat)
      ensures needed == Availability.Needed(recipients)
    {
      needed := 0;
      for i := 0 to |recipients|
        invariant needed + Availability.Needed(recipients[i..]) == Availability.Needed(recipients)
      {
        assert recipients[i..][0] == recipients[i] && recipients[i..][1..] == recipients[i + 1..];
        needed := needed + Max(recipients[i].credits, 0);
      }
    }

    method AccrueCredits(recipients: seq<Availability.Recipient>)
      modifies this`devices, this`balances, this`sessions
      ensures Tables() == Availability.AccrueAll(old(Tables()), recipients)
    {
      hide Availability.Accrue;
      for i := 0 to |recipients|
        modifies this`devices, this`balances, this`sessions
        invariant Availability.AccrueAll(Tables(), recipients[i..]) == Availability.AccrueAll(old(Tables()), recipients)
      {
        assert recipients[i..][0] == recipients[i] && recipients[i..][1..] == recipients[i + 1..];
        AccrueTo(recipients[i]);
      }
    }

    method AccrueTo(recipient: Availability.Recipient)
      modifies this`devices, this`balances, this`sessions
      ensures Tables() == Availability.Accrue(old(Tables()), recipient)
    {
      var d, credits := recipient.device, recipient.credits;
      devices := devices + {d};
      EnsureBalance(d);
      balances := balances[d := balances[d] + credits];
      assert balances == old(balances)[d := Get(old(balances), d) + credits];
      if d in sessions {
        sessions := sessions[d := Session(recipient.model, sessions[d].accrued + credits)];
      } else {
        sessions := sessions[d := Session(recipient.model, credits)];
      }
    }

    method FinalizeSessions(recipients: seq<Availability.Recipient>) returns (listed: seq<Device>)
      modifies this`sessions, this`rows
      ensures Tables() == Availability.FinalizeStale(old(Tables()), recipients, listed)
      ensures forall d :: d in old(sessions) ==> d in listed
    {
      var open := sessions.Keys;
      listed := [];
      while open != {}
        modifies this`sessions, this`rows
        invariant forall d :: d in old(sessions) ==> d in listed || d in open
        invariant Tables() == Availability.FinalizeStale(old(Tables()), recipients, listed)
        decreases open
      {
        var d :| d in open;
        Availability.FinalizeStaleSnoc(old(Tables()), recipients, listed, d);
        if d in sessions && !Availability.StillMatching(recipients, d, sessions[d]) {
          if sessions[d].accrued > 0 {
            rows := rows + [Row(d, AvailabilitySession, sessions[d].accrued)];
          }
          sessions := sessions - {d};
        }
        listed := listed + [d];
        open := open - {d};
      }
    }

    // ---- deposits and withdrawals ----

    /** Credits a verified deposit once per signature. */
    method CreditDeposit(a: Account, signature: string, deposit: Deposit)
      requires a in wallets
      modifies this`wallets, this`deposits
      ensures AccountTables() == Withdrawals.Credited(old(AccountTables()), a, signature, deposit)
    {
      deposits := deposits[signature := deposit];
      var wallet := wallets[a];
      wallets := wallets[a := wallet.(balance := wallet.balance + deposit.cents * CREDITS_PER_CENT,
                                      usdc := wallet.usdc + deposit.cents, deposited := wallet.deposited + deposit.cents)];
    }

    method RecordOnchainDeposit(requester: Device, address: Option<string>, signature: Option<string>, cents: Option<int>,
                                source: Option<string>) returns (r: Result<(), Error>)
      modifies this`wallets, this`deposits
      ensures AccountsReport(r, Withdrawals.DepositOnchain(old(AccountTables()), requester, address, signature, cents, source),
                             old(Tables()), Tables())
    {
      if requester !in links {
        return Err(NotLinked);
      }
      var a := links[requester];
      if a !in wallets {
        return Err(ConstraintFailed);
      }
      var resolved := Withdrawals.ResolveAddress(wallets[a], address);
      if resolved.Err? {
        return Err(resolved.error);
      }
      if signature.Some? {
        if cents.None? {
          return Err(AmountRequired);
        }
        if cents.value <= 0 {
          return Err(InvalidAmount);
        }
        if !Withdrawals.Converts(cents.value) {
          return Err(Overflow);
        }
        var deposit := Deposit(a, resolved.value, cents.value, source);
        if signature.value in deposits && deposits[signature.value] != deposit {
          return Err(DepositConflict);
        }
      }
      wallets := wallets[a := wallets[a].(address := Some(resolved.value), enabled := true)];
      if signature.Some? && signature.value !in deposits {
        CreditDeposit(a, signature.value, Deposit(a, resolved.value, cents.value, source));
      }
      return Ok(());
    }

    method RecordTreasuryDeposit(requester: Device, signature: string, cents: int, source: Option<string>, treasury: string)
      returns (r: Result<(), Error>)
      modifies this`wallets, this`deposits
      ensures AccountsReport(r, Withdrawals.DepositTreasury(old(AccountTables()), requester, signature, cents, source, treasury),
                             old(Tables()), Tables())
    {
      if cents <= 0 || !Withdrawals.Converts(cents) {
        return Err(InvalidAmount);
      }
      if requester !in links {
        return Err(NotLinked);
      }
      var a := links[requester];
      if a !in wallets {
        return Err(ConstraintFailed);
      }
      if signature in deposits {
        var existing := deposits[signature];
        if existing.account != a || existing.address != treasury || existing.cents != cents {
          return Err(DepositConflict);
        }
        return Ok(());
      }
      CreditDeposit(a, signature, Deposit(a, treasury, cents, source));
      return Ok(());
    }

    method SignatureUsed(id: string, signature: string) returns (used: bool)
      ensures used == Withdrawals.UsedElsewhere(withdrawals, signature, id)
    {
      used := exists q :: q in withdrawals && q != id && withdrawals[q].status == Submitted(signature);
    }

    method SubmitAccountWithdrawal(requester: Device, request: Option<string>, destination: Option<string>, cents: int,
                                   signature: Option<string>) returns (r: Result<(), Error>)
      modifies this`wallets, this`withdrawals
      ensures AccountsReport(r, Withdrawals.Submit(old(AccountTables()), requester, request, destination, cents, signature),
                             old(Tables()), Tables())
    {
      hide Withdrawals.UsedElsewhere, Withdrawals.Converts;
      if request.None? || destination.None? {
        return Err(MissingField);
      }
      if cents <= 0 {
        return Err(InvalidAmount);
      }
      if requester !in links {
        return Err(NotLinked);
      }
      if links[requester] !in wallets {
        return Err(ConstraintFailed);
      }
      var a, id := links[requester], request.value;
      var wallet := wallets[a];
      if !wallet.enabled || wallet.address.None? {
        return Err(NotEnabled);
      }
      if !Withdrawals.Converts(cents) {
        return Err(Overflow);
      }
      var credits := cents * CREDITS_PER_CENT;
      var used := false;
      if signature.Some? {
        used := SignatureUsed(id, signature.value);
      }
      if used {
        return Err(SignatureConflict);
      }
      if id in withdrawals {
        var existing := withdrawals[id];
        if existing.account != a || existing.destination != destination.value || existing.cents != cents || existing.credits != credits {
          return Err(WithdrawalConflict);
        }
        if !existing.status.Pending? {
          if signature.Some? && existing.status != Submitted(signature.value) {
            return Err(WithdrawalConflict);
          }
          return Ok(());
        }
        if signature.None? {
          return Ok(());
        }
      }
      if signature.None? {
        if wallet.balance < credits {
          return Err(InsufficientBalance);
        }
        wallets := wallets[a := wallet.(balance := wallet.balance - credits, usdc := wallet.usdc - cents)];
        withdrawals := withdrawals[id := Withdrawal(a, destination.value, cents, credits, Pending)];
        return Ok(());
      }
      if !Withdrawals.Converts(Withdrawals.Redeemable(wallet)) {
        return Err(Overflow);
      }
      if id in withdrawals {
        wallets := wallets[a := wallet.(withdrawn := wallet.withdrawn + cents)];
      } else {
        if wallet.balance < credits {
          return Err(InsufficientBalance);
        }
        wallets := wallets[a := wallet.(balance := wallet.balance - credits, usdc := wallet.usdc - cents, withdrawn := wallet.withdrawn + cents)];
      }
      withdrawals := withdrawals[id := Withdrawal(a, destination.value, cents, credits, Submitted(signature.value))];
      return Ok(());
    }

    method CompleteFromTreasury(id: string, signature: string) returns (r: Result<(), Error>)
      modifies this`wallets, this`withdrawals
      ensures AccountsReport(r, Withdrawals.Complete(old(AccountTables()), id, signature), old(Tables()), Tables())
    {
      if id !in withdrawals {
        return Err(NotPending);
      }
      var existing := withdrawals[id];
      if !existing.status.Pending? {
        if existing.status == Submitted(signature) {
          return Ok(());
        }
        return Err(WithdrawalConflict);
      }
      if exists q :: q in withdrawals && q != id && withdrawals[q].status == Submitted(signature) {
        return Err(SignatureConflict);
      }
      if existing.account !in wallets {
        return Err(ConstraintFailed);
      }
      var wallet := wallets[existing.account];
      wallets := wallets[existing.account := wallet.(withdrawn := wallet.withdrawn + existing.cents)];
      withdrawals := withdrawals[id := existing.(status := Submitted(signature))];
      return Ok(());
    }

    method RejectAccountWithdrawal(id: string) returns (r: Result<(), Error>)
      modifies this`wallets, this`withdrawals
      ensures AccountsReport(r, Withdrawals.Reject(old(AccountTables()), id), old(Tables()), Tables())
    {
      if id !in withdrawals {
        return Err(NotPending);
      }
      var existing := withdrawals[id];
      if !existing.status.Pending? {
        return Err(WithdrawalConflict);
      }
      if existing.account !in wallets {
        return Err(ConstraintFailed);
      }
      var wallet := wallets[existing.account];
      wallets := wallets[existing.account :=
        wallet.(balance := wallet.balance + existing.credits, usdc := wallet.usdc + existing.cents)];
      withdrawals := withdrawals[id := existing.(status := Rejected)];
      return Ok(());
    }
  }
}
