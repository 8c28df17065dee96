/** Settling a request: who is charged, how the charge is split, and who is paid. */
module Settlement {
  import opened Prelude
  import opened Credit
  import opened SharePools

  datatype Consumer =
    | Wallet(device: Device)
    | Share(issuer: Device, key: KeyId)
    | ApiAccount(account: Account, apiKey: Option<string>)

  /** What the payer can be charged out of `cost`. */
  function Payable(s: State, consumer: Consumer, cost: int, capped: bool): int {
    match consumer
    case Wallet(d) => Min(cost, Max(Get(s.books.balances, d), 0))
    case Share(issuer, k) =>
      if k in s.keys && s.keys[k].funded
      then Min(cost, Max(Remaining(s.keys[k].contributions), 0))
      else Min(Min(cost, Max(Get(s.books.balances, issuer), 0)), Max(if k in s.keys then s.keys[k].budget - s.keys[k].consumed else 0, 0))
    case ApiAccount(a, key) =>
      var afford := Min(cost, Max(if a in s.accounts.wallets then s.accounts.wallets[a].balance else 0, 0));
      if capped && key.Some? && key.value in s.accounts.apiKeys && s.accounts.apiKeys[key.value].limit.Some?
      then Min(afford, Max(s.accounts.apiKeys[key.value].limit.value - s.accounts.apiKeys[key.value].usage, 0))
      else afford
  }

  /** The debit. An account and an API key that do not exist fail their foreign keys. */
  function Charge(s: State, consumer: Consumer, amount: int): Outcome {
    match consumer
    case Wallet(d) => Ok(s.(books := Post(s.books, d, Spent, -amount)))
    case Share(issuer, k) =>
      if k in s.keys && s.keys[k].funded then Ok(SpendKey(s, issuer, k, amount))
      else
        var t := s.(books := Post(s.books, issuer, Spent, -amount));
        Ok(if k in s.keys then t.(keys := s.keys[k := s.keys[k].(consumed := s.keys[k].consumed + amount)]) else t)
    case ApiAccount(a, key) =>
      if a !in s.accounts.wallets || (key.Some? && key.value !in s.accounts.apiKeys) then Err(ConstraintFailed)
      else Ok(s.(accounts := UseKey(PayAccount(s.accounts, a, -amount), key, amount)))
  }

  function UseKey(a: Accounts, key: Option<string>, amount: int): Accounts
    requires key.Some? ==> key.value in a.apiKeys
  {
    match key
    case None => a
    case Some(k) => a.(apiKeys := a.apiKeys[k := a.apiKeys[k].(usage := a.apiKeys[k].usage + amount)])
  }

  // ---- the 70/25/5 split over the fleet ----

  function DirectEarnOf(amount: int): int { amount * 70 / 100 }

  function PoolShareOf(amount: int): int { amount * 25 / 100 }

  function PerPeer(amount: int, peers: nat): int {
    if peers == 0 then 0 else PoolShareOf(amount) / peers
  }

  /** The fee plus whatever the availability pool could not split into whole credits. */
  function OpsTotal(amount: int, peers: nat): int {
    (amount - DirectEarnOf(amount) - PoolShareOf(amount)) + (PoolShareOf(amount) - PerPeer(amount, peers) * peers)
  }

  /** Online devices other than the provider and the device that pays. */
  function Recipients(online: seq<Device>, provider: Option<Device>, payer: Option<Device>): seq<Device> {
    if online == [] then []
    else (if Some(online[0]) == provider || Some(online[0]) == payer then [] else [online[0]])
         + Recipients(online[1..], provider, payer)
  }

  /** One device at a time. */
  lemma {:induction false} RecipientsStep(done: seq<Device>, online: seq<Device>, provider: Option<Device>, payer: Option<Device>)
    requires online != []
    ensures var rest := Recipients(online[1..], provider, payer);
      done + Recipients(online, provider, payer)
      == if Some(online[0]) == provider || Some(online[0]) == payer then done + rest else done + [online[0]] + rest
  {
    var rest := Recipients(online[1..], provider, payer);
    if Some(online[0]) == provider || Some(online[0]) == payer {
      assert Recipients(online, provider, payer) == [] + rest == rest;
    } else {
      assert Recipients(online, provider, payer) == [online[0]] + rest;
      Append(done, rest, online[0]);
    }
  }

  function Earn(b: Books, d: Device, kind: Kind, amount: int): Books {
    if amount > 0 then Post(b, d, kind, amount) else b
  }

  function PayFleet(b: Books, provider: Option<Device>, peers: seq<Device>, amount: int): Books {
    var b1 := match provider case None => b case Some(p) => Earn(b, p, DirectEarn, DirectEarnOf(amount));
    var b2 := if PerPeer(amount, |peers|) > 0 then PostAll(b1, peers, AvailabilityEarn, PerPeer(amount, |peers|)) else b1;
    Earn(b2, OPS, OpsFee, OpsTotal(amount, |peers|))
  }

  function Payer(consumer: Consumer): Option<Device> {
    match consumer
    case Wallet(d) => Some(d)
    case Share(issuer, _) => Some(issuer)
    case ApiAccount(_, _) => None
  }

  function SettleFleet(s: State, consumer: Consumer, provider: Option<Device>, online: seq<Device>, cost: int): Outcome {
    if cost <= 0 then Ok(s)
    else
      var amount := Payable(s, consumer, cost, true);
      match Charge(s, consumer, amount)
      case Err(e) => Err(e)
      case Ok(t) =>
        Ok(t.(books := PayFleet(t.books, provider, Recipients(online, provider, Payer(consumer)), amount)))
  }

  // ---- the 95/5 split with a third-party provider ----

  function ProviderShareOf(amount: int): int { amount * 95 / 100 }

  function SettleProvider(s: State, consumer: Consumer, provider: Provider, cost: int): Outcome {
    if cost <= 0 then Ok(s)
    else
      var amount := Payable(s, consumer, cost, false);
      match Charge(s, consumer, amount)
      case Err(e) => Err(e)
      case Ok(t) =>
        var earned := ProviderShareOf(amount);
        if earned > 0 && provider !in s.providers then Err(ConstraintFailed)
        else Ok(t.(earnings := if earned > 0 then t.earnings[provider := Get(t.earnings, provider) + earned] else t.earnings,
                   books := Earn(t.books, OPS, OpsFee, amount - earned)))
  }

  function Payout(s: State, provider: Provider, amount: int): Outcome {
    if amount <= 0 then Err(InvalidAmount)
    else if amount > Get(s.earnings, provider) then Err(InsufficientBalance)
    else Ok(s.(earnings := s.earnings[provider := Get(s.earnings, provider) - amount]))
  }

  // ---- lemmas ----

  predicate SameRequests(a: Accounts, b: Accounts) {
    a.withdrawals == b.withdrawals && a.deposits == b.deposits
  }

  // ---- who pays ----

  /** What the payer's funds, limits and budgets allow. */
  ghost predicate Affordable(s: State, consumer: Consumer, capped: bool, x: int) {
    match consumer
    case Wallet(d) => x <= Get(s.books.balances, d)
    case Share(issuer, k) =>
      if k in s.keys && s.keys[k].funded then x <= Remaining(s.keys[k].contributions)
      else x <= Get(s.books.balances, issuer) && k in s.keys && x <= s.keys[k].budget - s.keys[k].consumed
    case ApiAccount(a, key) =>
      && a in s.accounts.wallets && x <= s.accounts.wallets[a].balance
      && (capped && key.Some? && key.value in s.accounts.apiKeys && s.accounts.apiKeys[key.value].limit.Some? ==>
            x <= s.accounts.apiKeys[key.value].limit.value - s.accounts.apiKeys[key.value].usage)
  }

  /** An amount that can be charged: nothing, or a part of the cost that the payer can afford. */
  ghost predicate Chargeable(s: State, consumer: Consumer, cost: int, capped: bool, x: int) {
    0 <= x <= cost && (x == 0 || Affordable(s, consumer, capped, x))
  }

  /** The charge is the most that can be charged. */
  lemma {:induction false} PayableIsGreatest(s: State, consumer: Consumer, cost: int, capped: bool)
    requires cost > 0
    ensures Chargeable(s, consumer, cost, capped, Payable(s, consumer, cost, capped))
    ensures forall x :: Chargeable(s, consumer, cost, capped, x) ==> x <= Payable(s, consumer, cost, capped)
  {
    hide Remaining;
  }

  /** What a charge does to a device's wallet: a wallet pays for itself, an unfunded share key's issuer for the key. */
  function DeviceDebit(s: State, consumer: Consumer, amount: int, d: Device): int {
    match consumer
    case Wallet(e) => if e == d then amount else 0
    case Share(issuer, k) => if issuer == d && !(k in s.keys && s.keys[k].funded) then amount else 0
    case ApiAccount(_, _) => 0
  }

  /** What a charge does to share keys: the key's ticker rises, and a funded key's pool falls. */
  ghost predicate KeysDebited(s: State, t: State, consumer: Consumer, amount: int) {
    if consumer.Share? && consumer.key in s.keys then
      var k := consumer.key;
      && k in t.keys && t.keys == s.keys[k := t.keys[k]]
      && t.keys[k] == s.keys[k].(consumed := s.keys[k].consumed + amount, contributions := t.keys[k].contributions)
      && (if s.keys[k].funded then PoolOf(t.keys, k) == PoolOf(s.keys, k) - amount
          else t.keys[k].contributions == s.keys[k].contributions)
    else t.keys == s.keys
  }

  /** What a charge does to accounts: the account's balance falls, and its API key's usage rises. */
  ghost predicate AccountsDebited(s: State, t: State, consumer: Consumer, amount: int) {
    if consumer.ApiAccount? then
      var x, key := consumer.account, consumer.apiKey;
      && x in s.accounts.wallets && (key.Some? ==> key.value in s.accounts.apiKeys)
      && t.accounts == s.accounts.(
           wallets := s.accounts.wallets[x := s.accounts.wallets[x].(balance := s.accounts.wallets[x].balance - amount)],
           apiKeys := if key.None? then s.accounts.apiKeys
                      else s.accounts.apiKeys[key.value := s.accounts.apiKeys[key.value].(
                             usage := s.accounts.apiKeys[key.value].usage + amount)])
    else t.accounts == s.accounts
  }

  /** The row a charge leaves on a device's ledger: money spent, or an audit row for money out of a funded key's pool. */
  function ChargeRows(s: State, consumer: Consumer, amount: int): seq<Row> {
    match consumer
    case Wallet(d) => [Row(d, Spent, -amount)]
    case Share(issuer, k) => [Row(issuer, if k in s.keys && s.keys[k].funded then PoolSpent(k) else Spent, -amount)]
    case ApiAccount(_, _) => []
  }

  lemma {:induction false} ChargeTakes(s: State, consumer: Consumer, amount: int, d: Device)
    requires Charge(s, consumer, amount).Ok?
    requires consumer.Share? && consumer.key in s.keys && s.keys[consumer.key].funded ==>
      ContributionsOk(s.keys[consumer.key].contributions) && 0 <= amount <= Remaining(s.keys[consumer.key].contributions)
    ensures var t := Charge(s, consumer, amount).value;
      && Get(t.books.balances, d) == Get(s.books.balances, d) - DeviceDebit(s, consumer, amount, d)
      && KeysDebited(s, t, consumer, amount) && AccountsDebited(s, t, consumer, amount)
      && t.books.rows == s.books.rows + ChargeRows(s, consumer, amount)
      && t == s.(books := t.books, keys := t.keys, accounts := t.accounts)
  {
    hide Remaining, SpendPool;
    assert s.books.rows + [] == s.books.rows;
    if consumer.Share? && consumer.key in s.keys && s.keys[consumer.key].funded {
      SpendPoolExact(s.keys[consumer.key].contributions, amount);
    }
  }

  // ---- who is paid ----

  /** The online devices, each as often as it is listed, without the provider and the payer. */
  ghost function Peers(online: seq<Device>, provider: Option<Device>, payer: Option<Device>): multiset<Device> {
    var all := multiset(online);
    var others := if provider.Some? then all[provider.value := 0] else all;
    if payer.Some? then others[payer.value := 0] else others
  }

  lemma {:induction false} CountCons(ds: seq<Device>, d: Device)
    requires ds != []
    ensures multiset(ds)[d] == multiset(ds[1..])[d] + if ds[0] == d then 1 else 0
  {
    assert ds == [ds[0]] + ds[1..];
  }

  lemma {:induction false} RecipientCount(online: seq<Device>, provider: Option<Device>, payer: Option<Device>, d: Device)
    ensures multiset(Recipients(online, provider, payer))[d]
      == if Some(d) == provider || Some(d) == payer then 0 else multiset(online)[d]
  {
    if online != [] {
      var rest := Recipients(online[1..], provider, payer);
      RecipientCount(online[1..], provider, payer, d);
      CountCons(online, d);
      if Some(online[0]) == provider || Some(online[0]) == payer {
        assert Recipients(online, provider, payer) == [] + rest == rest;
      } else {
        var all := [online[0]] + rest;
        assert Recipients(online, provider, payer) == all;
        CountCons(all, d);
        assert all[1..] == rest;
      }
    }
  }

  lemma {:induction false} RecipientsArePeers(online: seq<Device>, provider: Option<Device>, payer: Option<Device>)
    ensures multiset(Recipients(online, provider, payer)) == Peers(online, provider, payer)
  {
    hide Recipients;
    forall d ensures multiset(Recipients(online, provider, payer))[d] == Peers(online, provider, payer)[d] {
      RecipientCount(online, provider, payer, d);
    }
  }

  /** 70% to the provider, 25% in equal whole parts to the peers, and all that is left to the operations wallet. */
  ghost function FleetShare(provider: Option<Device>, peers: multiset<Device>, amount: int, d: Device): int {
    var part := if |peers| == 0 then 0 else amount * 25 / 100 / |peers|;
    (if provider == Some(d) then amount * 70 / 100 else 0)
    + peers[d] * part
    + (if d == OPS then amount - amount * 70 / 100 - |peers| * part else 0)
  }

  lemma {:induction false} PostAllPays(b: Books, ds: seq<Device>, kind: Kind, amount: int, d: Device)
    ensures Get(PostAll(b, ds, kind, amount).balances, d) == Get(b.balances, d) + multiset(ds)[d] * amount
    decreases |ds|
  {
    if ds != [] {
      PostAllPays(Post(b, ds[0], kind, amount), ds[1..], kind, amount, d);
      CountCons(ds, d);
      assert (multiset(ds[1..])[d] + 1) * amount == multiset(ds[1..])[d] * amount + amount;
    }
  }

  lemma {:induction false} EarnPays(b: Books, e: Device, kind: Kind, amount: int, d: Device)
    requires amount >= 0
    ensures Get(Earn(b, e, kind, amount).balances, d) == Get(b.balances, d) + if e == d then amount else 0
  {}

  function OneRow(d: Device, kind: Kind, amount: int): seq<Row> { if amount > 0 then [Row(d, kind, amount)] else [] }

  /** The rows of a payout: the provider's, the peers' in their order, and the operations wallet's, none of them for nothing. */
  function FleetRows(provider: Option<Device>, peers: seq<Device>, amount: int): seq<Row> {
    var part := if peers == [] then 0 else amount * 25 / 100 / |peers|;
    (if provider.None? then [] else OneRow(provider.value, DirectEarn, amount * 70 / 100))
    + (if part > 0 then seq(|peers|, i requires 0 <= i < |peers| => Row(peers[i], AvailabilityEarn, part)) else [])
    + OneRow(OPS, OpsFee, amount - amount * 70 / 100 - |peers| * part)
  }

  lemma {:induction false} PostAllBooks(b: Books, ds: seq<Device>, kind: Kind, amount: int)
    ensures PostAll(b, ds, kind, amount).rows == b.rows + seq(|ds|, i requires 0 <= i < |ds| => Row(ds[i], kind, amount))
    decreases |ds|
  {
    var rows := seq(|ds|, i requires 0 <= i < |ds| => Row(ds[i], kind, amount));
    if ds == [] {
      assert b.rows + rows == b.rows;
    } else {
      PostAllBooks(Post(b, ds[0], kind, amount), ds[1..], kind, amount);
      var rest := seq(|ds[1..]|, i requires 0 <= i < |ds[1..]| => Row(ds[1..][i], kind, amount));
      assert rows == [Row(ds[0], kind, amount)] + rest;
      Append(b.rows, rest, Row(ds[0], kind, amount));
    }
  }

  lemma {:induction false} FleetBooks(b: Books, provider: Option<Device>, peers: seq<Device>, amount: int)
    requires amount >= 0
    ensures PayFleet(b, provider, peers, amount).rows == b.rows + FleetRows(provider, peers, amount)
  {
    hide PostAll;
    var direct, per := DirectEarnOf(amount), PerPeer(amount, |peers|);
    var b1 := match provider case None => b case Some(p) => Earn(b, p, DirectEarn, direct);
    var first := if provider.None? then [] else OneRow(provider.value, DirectEarn, direct);
    assert b1.rows == b.rows + first;
    var rows := seq(|peers|, i requires 0 <= i < |peers| => Row(peers[i], AvailabilityEarn, per));
    var second := if per > 0 then rows else [];
    var b2 := if per > 0 then PostAll(b1, peers, AvailabilityEarn, per) else b1;
    PostAllBooks(b1, peers, AvailabilityEarn, per);
    assert b2.rows == b1.rows + second;
    var third := OneRow(OPS, OpsFee, OpsTotal(amount, |peers|));
    assert Earn(b2, OPS, OpsFee, OpsTotal(amount, |peers|)).rows == b2.rows + third;
    assert per * |peers| == |peers| * per;
    assert FleetRows(provider, peers, amount) == first + second + third;
    assert b.rows + first + second + third == b.rows + (first + second + third);
  }

  /** Every device gets exactly its share of a charge. */
  lemma {:induction false} FleetPays(b: Books, provider: Option<Device>, peers: seq<Device>, amount: int, d: Device)
    requires amount >= 0
    ensures Get(PayFleet(b, provider, peers, amount).balances, d)
      == Get(b.balances, d) + FleetShare(provider, multiset(peers), amount, d)
  {
    hide Earn, PostAll;
    SplitIsExact(amount, |peers|);
    var direct, per := DirectEarnOf(amount), PerPeer(amount, |peers|);
    var b1 := match provider case None => b case Some(p) => Earn(b, p, DirectEarn, direct);
    if provider.Some? {
      EarnPays(b, provider.value, DirectEarn, direct, d);
    }
    var b2 := if per > 0 then PostAll(b1, peers, AvailabilityEarn, per) else b1;
    PostAllPays(b1, peers, AvailabilityEarn, per, d);
    EarnPays(b2, OPS, OpsFee, OpsTotal(amount, |peers|), d);
    assert |multiset(peers)| == |peers|;
    assert per * |peers| == |peers| * per;
  }

  /** The source of a charge always covers it, so a charge is never more than the cost either. */
  lemma {:induction false} PayableBounds(s: State, now: int, consumer: Consumer, cost: int, capped: bool)
    requires Inv(s, now) && cost > 0
    ensures 0 <= Payable(s, consumer, cost, capped) <= cost
  {}

  lemma {:induction false} ChargeWallet(s: State, now: int, d: Device, amount: int)
    requires Inv(s, now) && 0 <= amount <= Get(s.books.balances, d)
    ensures var t := s.(books := Post(s.books, d, Spent, -amount)); Inv(t, now) && Credits(t) == Credits(s) - amount
  {
    hide BooksOk, AccountsOk, EarningsOk, KeysOk, PoolsAgree;
    PostMoves(s.books, s.sessions, s.keys, d, Spent, -amount);
  }

  lemma {:induction false} ChargeLegacyKey(s: State, now: int, k: KeyId, amount: int)
    requires Inv(s, now) && k in s.keys && !s.keys[k].funded && 0 <= amount <= s.keys[k].budget - s.keys[k].consumed
    ensures var t := s.(keys := s.keys[k := s.keys[k].(consumed := s.keys[k].consumed + amount)]);
      Inv(t, now) && Credits(t) == Credits(s)
  {
    hide BooksOk, AccountsOk, EarningsOk, PoolsAgree;
    RekeyKeeps(s, now, k, s.keys[k].(consumed := s.keys[k].consumed + amount));
  }

  lemma {:induction false} ChargeAccount(s: State, now: int, a: Account, key: Option<string>, amount: int)
    requires Inv(s, now) && a in s.accounts.wallets && (key.Some? ==> key.value in s.accounts.apiKeys)
    requires 0 <= amount <= s.accounts.wallets[a].balance
    ensures var t := s.(accounts := UseKey(PayAccount(s.accounts, a, -amount), key, amount));
      Inv(t, now) && Credits(t) == Credits(s) - amount
  {
    hide BooksOk, EarningsOk, KeysOk, PoolsAgree, DollarsAgree, WithdrawalsOk;
    PayAccountKeeps(s.accounts, a, -amount);
  }

  /** A charge takes exactly its amount out of the credits in existence. */
  lemma {:induction false} ChargeKeeps(s: State, now: int, consumer: Consumer, cost: int, capped: bool)
    requires Inv(s, now) && cost > 0 && Charge(s, consumer, Payable(s, consumer, cost, capped)).Ok?
    ensures var amount := Payable(s, consumer, cost, capped);
      var t := Charge(s, consumer, amount).value;
      && Inv(t, now) && Credits(t) == Credits(s) - amount
      && t.earnings == s.earnings && t.providers == s.providers && SameRequests(s.accounts, t.accounts)
  {
    hide PoolsAgree, KeyOk, DollarsAgree, WithdrawalsOk, EarningsOk, Credits, RowSum, SpendPool;
    var amount := Payable(s, consumer, cost, capped);
    PayableBounds(s, now, consumer, cost, capped);
    match consumer
    case Wallet(d) => ChargeWallet(s, now, d, amount);
    case Share(issuer, k) => ChargeShare(s, now, issuer, k, cost, amount);
    case ApiAccount(a, key) => ChargeAccount(s, now, a, key, amount);
  }

  lemma {:induction false} RemainingNonNegative(cs: seq<Contribution>)
    requires ContributionsOk(cs)
    ensures Remaining(cs) >= 0
  {
    if cs != [] {
      RemainingNonNegative(cs[1..]);
    }
  }

  lemma {:induction false} KeyBounds(key: ShareKey, now: int)
    requires KeyOk(key, now)
    ensures Remaining(key.contributions) >= 0 && 0 <= key.consumed <= key.budget
  {
    RemainingNonNegative(key.contributions);
  }

  lemma {:induction false} ChargeShare(s: State, now: int, issuer: Device, k: KeyId, cost: int, amount: int)
    requires Inv(s, now) && cost > 0 && amount == Payable(s, Share(issuer, k), cost, true)
    ensures var t := Charge(s, Share(issuer, k), amount).value; Inv(t, now) && Credits(t) == Credits(s) - amount
  {
    hide AccountsOk, EarningsOk, PoolsAgree, KeyOk, SpendKey;
    if k in s.keys {
      KeyBounds(s.keys[k], now);
    }
    if k in s.keys && s.keys[k].funded {
      SpendKeyKeeps(s, now, issuer, k, amount);
    } else {
      ChargeWallet(s, now, issuer, amount);
      if k in s.keys {
        ChargeLegacyKey(s.(books := Post(s.books, issuer, Spent, -amount)), now, k, amount);
      }
    }
  }

  /** 70/25/5: nothing negative, and the parts handed out never exceed the charge. */
  lemma {:induction false} SplitIsExact(amount: int, peers: nat)
    requires amount >= 0
    ensures DirectEarnOf(amount) >= 0 && PerPeer(amount, peers) >= 0 && OpsTotal(amount, peers) >= 0
    ensures DirectEarnOf(amount) + PerPeer(amount, peers) * peers + OpsTotal(amount, peers) == amount
  {
    if peers > 0 {
      var pool := PoolShareOf(amount);
      assert pool >= 0 && pool / peers * peers + pool % peers == pool;
    }
  }

  lemma {:induction false} EarnKeeps(b: Books, sessions: map<Device, Session>, keys: map<KeyId, ShareKey>, d: Device, kind: Kind, amount: int)
    requires BooksOk(b, sessions) && PoolsAgree(keys, b.rows) && Plain(kind) && amount >= 0
    ensures Moves(b, Earn(b, d, kind, amount), sessions, keys, amount)
  {
    EarnMoves(b, sessions, keys, d, kind, amount);
  }

  ghost predicate EveryoneGets(b: Books, t: Books, provider: Option<Device>, peers: multiset<Device>, amount: int) {
    forall d :: Get(t.balances, d) == Get(b.balances, d) + FleetShare(provider, peers, amount, d)
  }

  lemma {:induction false} EveryonePaid(b: Books, provider: Option<Device>, peers: seq<Device>, amount: int)
    requires amount >= 0
    ensures EveryoneGets(b, PayFleet(b, provider, peers, amount), provider, multiset(peers), amount)
  {
    hide PayFleet, FleetShare;
    forall d ensures Get(PayFleet(b, provider, peers, amount).balances, d) == Get(b.balances, d) + FleetShare(provider, multiset(peers), amount, d) {
      FleetPays(b, provider, peers, amount, d);
    }
  }

  lemma {:induction false} FleetMoves(b: Books, sessions: map<Device, Session>, keys: map<KeyId, ShareKey>,
                                      provider: Option<Device>, peers: seq<Device>, amount: int)
    requires BooksOk(b, sessions) && PoolsAgree(keys, b.rows) && amount >= 0
    ensures Moves(b, PayFleet(b, provider, peers, amount), sessions, keys, amount - (if provider.None? then DirectEarnOf(amount) else 0))
  {
    hide BooksOk, PoolsAgree, Earn, PostAll, DirectEarnOf, PerPeer, OpsTotal;
    SplitIsExact(amount, |peers|);
    var b1 := match provider case None => b case Some(p) => Earn(b, p, DirectEarn, DirectEarnOf(amount));
    if provider.Some? {
      EarnKeeps(b, sessions, keys, provider.value, DirectEarn, DirectEarnOf(amount));
    }
    var per := PerPeer(amount, |peers|);
    var b2 := if per > 0 then PostAll(b1, peers, AvailabilityEarn, per) else b1;
    if per > 0 {
      PostAllMoves(b1, sessions, keys, peers, AvailabilityEarn, per);
    }
    EarnKeeps(b2, sessions, keys, OPS, OpsFee, OpsTotal(amount, |peers|));
  }

  /** The fleet receives the whole charge, except the direct share when no device served the request. */
  lemma {:induction false} PayFleetMoves(b: Books, sessions: map<Device, Session>, keys: map<KeyId, ShareKey>,
                                         provider: Option<Device>, peers: seq<Device>, amount: int)
    requires BooksOk(b, sessions) && PoolsAgree(keys, b.rows) && amount >= 0
    ensures Moves(b, PayFleet(b, provider, peers, amount), sessions, keys,
                  amount - (if provider.None? then amount * 70 / 100 else 0))
    ensures EveryoneGets(b, PayFleet(b, provider, peers, amount), provider, multiset(peers), amount)
  {
    hide Moves, BooksOk, PoolsAgree, PayFleet, EveryoneGets;
    EveryonePaid(b, provider, peers, amount);
    FleetMoves(b, sessions, keys, provider, peers, amount);
  }

  /** What a fleet settlement destroys: the direct share that no device earned. */
  function Unclaimed(s: State, consumer: Consumer, provider: Option<Device>, cost: int): int {
    if cost > 0 && provider.None? then Payable(s, consumer, cost, true) * 70 / 100 else 0
  }

  /** Who pays and who is paid, to the credit: the greatest charge, its debit, and everyone's share of it. */
  ghost predicate FleetSettled(s: State, t: State, consumer: Consumer, provider: Option<Device>, online: seq<Device>, cost: int) {
    var amount := Payable(s, consumer, cost, true);
    var payer := if consumer.Wallet? then Some(consumer.device) else if consumer.Share? then Some(consumer.issuer) else None;
    && (forall d :: Get(t.books.balances, d)
          == Get(s.books.balances, d) - DeviceDebit(s, consumer, amount, d)
             + FleetShare(provider, Peers(online, provider, payer), amount, d))
    && KeysDebited(s, t, consumer, amount) && AccountsDebited(s, t, consumer, amount)
    && (exists peers :: multiset(peers) == Peers(online, provider, payer)
          && t.books.rows == s.books.rows + ChargeRows(s, consumer, amount) + FleetRows(provider, peers, amount))
    && t == s.(books := t.books, keys := t.keys, accounts := t.accounts)
  }

  lemma {:induction false} PoolCovers(s: State, now: int, consumer: Consumer, cost: int, capped: bool)
    requires Inv(s, now) && cost > 0 && consumer.Share? && consumer.key in s.keys && s.keys[consumer.key].funded
    ensures ContributionsOk(s.keys[consumer.key].contributions)
    ensures 0 <= Payable(s, consumer, cost, capped) <= Remaining(s.keys[consumer.key].contributions)
  {
    hide BooksOk, AccountsOk, EarningsOk, PoolsAgree, Remaining;
    assert KeyOk(s.keys[consumer.key], now);
    KeyBounds(s.keys[consumer.key], now);
  }

  lemma {:induction false} SettleFleetPays(s: State, now: int, consumer: Consumer, provider: Option<Device>, online: seq<Device>, cost: int)
    requires Inv(s, now) && cost > 0 && SettleFleet(s, consumer, provider, online, cost).Ok?
    ensures FleetSettled(s, SettleFleet(s, consumer, provider, online, cost).value, consumer, provider, online, cost)
  {
    hide Inv, Payable, Charge, PayFleet, FleetShare, FleetRows, ChargeRows, DeviceDebit, KeysDebited, AccountsDebited, Recipients, Peers, Remaining;
    var amount := Payable(s, consumer, cost, true);
    var peers := Recipients(online, provider, Payer(consumer));
    var t, u := Charge(s, consumer, amount).value, SettleFleet(s, consumer, provider, online, cost).value;
    PayableBounds(s, now, consumer, cost, true);
    if consumer.Share? && consumer.key in s.keys && s.keys[consumer.key].funded {
      PoolCovers(s, now, consumer, cost, true);
    }
    RecipientsArePeers(online, provider, Payer(consumer));
    forall d ensures Get(u.books.balances, d)
      == Get(s.books.balances, d) - DeviceDebit(s, consumer, amount, d) + FleetShare(provider, multiset(peers), amount, d)
    {
      ChargeTakes(s, consumer, amount, d);
      FleetPays(t.books, provider, peers, amount, d);
    }
    ChargeTakes(s, consumer, amount, OPS);
    FleetBooks(t.books, provider, peers, amount);
    DebitsSettled(s, t, u, consumer, amount);
  }

  lemma {:induction false} DebitsSettled(s: State, t: State, u: State, consumer: Consumer, amount: int)
    requires KeysDebited(s, t, consumer, amount) && AccountsDebited(s, t, consumer, amount)
    requires u.keys == t.keys && u.accounts == t.accounts
    ensures KeysDebited(s, u, consumer, amount) && AccountsDebited(s, u, consumer, amount)
  {
    hide Remaining;
  }

  /** Who pays and who is paid with a third-party provider: 95% are its earnings, the rest goes to the operations wallet. */
  ghost predicate ProviderSettled(s: State, t: State, consumer: Consumer, provider: Provider, cost: int) {
    var amount := Payable(s, consumer, cost, false);
    && (forall d :: Get(t.books.balances, d)
          == Get(s.books.balances, d) - DeviceDebit(s, consumer, amount, d) + (if d == OPS then amount - amount * 95 / 100 else 0))
    && (forall p :: Get(t.earnings, p) == Get(s.earnings, p) + if p == provider then amount * 95 / 100 else 0)
    && KeysDebited(s, t, consumer, amount) && AccountsDebited(s, t, consumer, amount)
    && t.books.rows == s.books.rows + ChargeRows(s, consumer, amount) + OneRow(OPS, OpsFee, amount - amount * 95 / 100)
    && t == s.(books := t.books, keys := t.keys, accounts := t.accounts, earnings := t.earnings)
  }

  lemma {:induction false} SettleProviderPays(s: State, now: int, consumer: Consumer, provider: Provider, cost: int)
    requires Inv(s, now) && cost > 0 && SettleProvider(s, consumer, provider, cost).Ok?
    ensures ProviderSettled(s, SettleProvider(s, consumer, provider, cost).value, consumer, provider, cost)
  {
    hide Inv, Payable, Charge, Earn, ChargeRows, DeviceDebit, KeysDebited, AccountsDebited, Remaining;
    var amount := Payable(s, consumer, cost, false);
    var t, u := Charge(s, consumer, amount).value, SettleProvider(s, consumer, provider, cost).value;
    PayableBounds(s, now, consumer, cost, false);
    if consumer.Share? && consumer.key in s.keys && s.keys[consumer.key].funded {
      PoolCovers(s, now, consumer, cost, false);
    }
    forall d ensures Get(u.books.balances, d)
      == Get(s.books.balances, d) - DeviceDebit(s, consumer, amount, d) + (if d == OPS then amount - amount * 95 / 100 else 0)
    {
      ChargeTakes(s, consumer, amount, d);
      EarnPays(t.books, OPS, OpsFee, amount - ProviderShareOf(amount), d);
    }
    ChargeTakes(s, consumer, amount, OPS);
    assert u.books.rows == t.books.rows + OneRow(OPS, OpsFee, amount - ProviderShareOf(amount)) by {
      EarnBooks(t.books, OPS, OpsFee, amount - ProviderShareOf(amount));
    }
    DebitsSettled(s, t, u, consumer, amount);
  }

  lemma {:induction false} EarnBooks(b: Books, d: Device, kind: Kind, amount: int)
    ensures Earn(b, d, kind, amount).rows == b.rows + OneRow(d, kind, amount)
  {
    assert b.rows + [] == b.rows;
  }

  lemma {:induction false} SettleFleetConserves(s: State, now: int, consumer: Consumer, provider: Option<Device>, online: seq<Device>, cost: int)
    requires Inv(s, now) && cost > 0 && SettleFleet(s, consumer, provider, online, cost).Ok?
    ensures var t := SettleFleet(s, consumer, provider, online, cost).value;
      && Inv(t, now) && Credits(t) == Credits(s) - Unclaimed(s, consumer, provider, cost)
      && SameRequests(s.accounts, t.accounts)
  {
    hide BooksOk, AccountsOk, EarningsOk, KeysOk, PoolsAgree, Payable, Charge, PayFleet, EveryoneGets;
    var amount := Payable(s, consumer, cost, true);
    PayableBounds(s, now, consumer, cost, true);
    ChargeKeeps(s, now, consumer, cost, true);
    var t := Charge(s, consumer, amount).value;
    PayFleetMoves(t.books, t.sessions, t.keys, provider, Recipients(online, provider, Payer(consumer)), amount);
  }

  /** A settlement keeps every invariant, charges the most it can, and pays everyone their share of it, to the credit. */
  lemma {:induction false} SettleFleetKeeps(s: State, now: int, consumer: Consumer, provider: Option<Device>, online: seq<Device>, cost: int)
    requires Inv(s, now) && SettleFleet(s, consumer, provider, online, cost).Ok?
    ensures var t := SettleFleet(s, consumer, provider, online, cost).value;
      && Inv(t, now) && Credits(t) == Credits(s) - Unclaimed(s, consumer, provider, cost)
      && SameRequests(s.accounts, t.accounts)
      && (if cost <= 0 then t == s else FleetSettled(s, t, consumer, provider, online, cost))
  {
    hide Inv, Credits, Payable, Charge, PayFleet, FleetSettled;
    if cost > 0 {
      SettleFleetConserves(s, now, consumer, provider, online, cost);
      SettleFleetPays(s, now, consumer, provider, online, cost);
    }
  }

  lemma {:induction false} SettleProviderConserves(s: State, now: int, consumer: Consumer, provider: Provider, cost: int)
    requires Inv(s, now) && cost > 0 && SettleProvider(s, consumer, provider, cost).Ok?
    ensures var t := SettleProvider(s, consumer, provider, cost).value;
      Inv(t, now) && Credits(t) == Credits(s) && SameRequests(s.accounts, t.accounts)
  {
    hide BooksOk, AccountsOk, KeysOk, PoolsAgree, Payable, Charge, Earn, Total;
    var amount := Payable(s, consumer, cost, false);
    PayableBounds(s, now, consumer, cost, false);
    ChargeKeeps(s, now, consumer, cost, false);
    var t := Charge(s, consumer, amount).value;
    var earned := ProviderShareOf(amount);
    EarnKeeps(t.books, t.sessions, t.keys, OPS, OpsFee, amount - earned);
    TotalUpdate(t.earnings, provider, Get(t.earnings, provider) + earned);
  }

  /** With a third-party provider every credit charged is paid on, 95% to the provider. */
  lemma {:induction false} SettleProviderKeeps(s: State, now: int, consumer: Consumer, provider: Provider, cost: int)
    requires Inv(s, now) && SettleProvider(s, consumer, provider, cost).Ok?
    ensures var t := SettleProvider(s, consumer, provider, cost).value;
      && Inv(t, now) && Credits(t) == Credits(s) && SameRequests(s.accounts, t.accounts)
      && (if cost <= 0 then t == s else ProviderSettled(s, t, consumer, provider, cost))
  {
    hide Inv, Credits, Payable, Charge, Earn, ProviderSettled;
    if cost > 0 {
      SettleProviderConserves(s, now, consumer, provider, cost);
      SettleProviderPays(s, now, consumer, provider, cost);
    }
  }

  /** When a settlement is refused: an account or API key that does not exist, or an unknown provider that would earn. */
  lemma {:induction false} SettlementRefusals(s: State, consumer: Consumer, provider: Option<Device>, online: seq<Device>, vendor: Provider, cost: int)
    ensures var missing := consumer.ApiAccount? &&
        (consumer.account !in s.accounts.wallets || (consumer.apiKey.Some? && consumer.apiKey.value !in s.accounts.apiKeys));
      && (SettleFleet(s, consumer, provider, online, cost).Err? <==> cost > 0 && missing)
      && (SettleProvider(s, consumer, vendor, cost).Err?
          <==> cost > 0 && (missing || (Payable(s, consumer, cost, false) * 95 / 100 > 0 && vendor !in s.providers)))
  {
    hide Payable, PayFleet, Earn, SpendKey;
  }

  lemma {:induction false} PayoutKeeps(s: State, now: int, provider: Provider, amount: int)
    requires Inv(s, now) && Payout(s, provider, amount).Ok?
    ensures var t := Payout(s, provider, amount).value;
      && Inv(t, now) && Credits(t) == Credits(s) - amount && t == s.(earnings := t.earnings)
      && (forall p :: Get(t.earnings, p) == Get(s.earnings, p) - if p == provider then amount else 0)
    ensures 0 < amount <= Get(s.earnings, provider)
  {
    hide BooksOk, AccountsOk, KeysOk, PoolsAgree, Total;
    TotalUpdate(s.earnings, provider, Get(s.earnings, provider) - amount);
  }
}
