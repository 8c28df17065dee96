/** Share keys: pre-funded pools with several funders, spent pro rata and refunded once. */
module SharePools {
  import opened Prelude
  import opened Credit
  import Apportionment

  const MIN_EXPIRES_IN := 60
  const MAX_EXPIRES_IN := 2_592_000
  const MIN_BUDGET := 1
  const MAX_BUDGET := 50_000_000
  const MAX_ACTIVE_PER_ISSUER := 50

  // ---- spending from a pool ----

  /** The contributions that still hold credits, as the apportionment reads them. */
  function Shares(cs: seq<Contribution>): (r: seq<Apportionment.Share>)
    ensures Apportionment.Positive(r)
  {
    if cs == [] then []
    else
      (if cs[0].remaining > 0 then [Apportionment.Share(cs[0].id, cs[0].remaining, cs[0].createdAt)] else [])
      + Shares(cs[1..])
  }

  /** One contribution at a time. */
  lemma {:induction false} SharesSplit(done: seq<Apportionment.Share>, cs: seq<Contribution>)
    requires cs != []
    ensures cs[0].remaining > 0 ==>
      done + Shares(cs) == done + [Apportionment.Share(cs[0].id, cs[0].remaining, cs[0].createdAt)] + Shares(cs[1..])
    ensures cs[0].remaining <= 0 ==> done + Shares(cs) == done + Shares(cs[1..])
  {
    hide Apportionment.Positive;
    var rest := Shares(cs[1..]);
    if cs[0].remaining > 0 {
      var x := Apportionment.Share(cs[0].id, cs[0].remaining, cs[0].createdAt);
      assert Shares(cs) == [x] + rest;
      Append(done, rest, x);
    } else {
      assert Shares(cs) == [] + rest == rest;
    }
  }

  /** The reductions written back to the contributions they were computed for. */
  function WriteBack(cs: seq<Contribution>, rs: seq<int>): (r: seq<Contribution>)
    requires |rs| == |Shares(cs)|
    ensures |r| == |cs|
  {
    if cs == [] then []
    else if cs[0].remaining > 0
    then [cs[0].(remaining := Max(0, cs[0].remaining - rs[0]))] + WriteBack(cs[1..], rs[1..])
    else [cs[0]] + WriteBack(cs[1..], rs)
  }

  lemma {:induction false} WriteBackStep(done: seq<Contribution>, cs: seq<Contribution>, rs: seq<int>)
    requires cs != [] && |rs| == |Shares(cs)|
    ensures cs[0].remaining > 0 ==> rs != [] && |rs[1..]| == |Shares(cs[1..])|
    ensures cs[0].remaining > 0 ==>
      done + WriteBack(cs, rs) == done + [cs[0].(remaining := Max(0, cs[0].remaining - rs[0]))] + WriteBack(cs[1..], rs[1..])
    ensures cs[0].remaining <= 0 ==>
      |rs| == |Shares(cs[1..])| && done + WriteBack(cs, rs) == done + [cs[0]] + WriteBack(cs[1..], rs)
  {
    hide Apportionment.Positive;
    SharesSplit([], cs);
    assert [] + Shares(cs) == Shares(cs);
    if cs[0].remaining > 0 {
      Append([], Shares(cs[1..]), Apportionment.Share(cs[0].id, cs[0].remaining, cs[0].createdAt));
      var c, rest := cs[0].(remaining := Max(0, cs[0].remaining - rs[0])), WriteBack(cs[1..], rs[1..]);
      assert WriteBack(cs, rs) == [c] + rest;
      Append(done, rest, c);
    } else {
      assert [] + Shares(cs[1..]) == Shares(cs[1..]);
      var rest := WriteBack(cs[1..], rs);
      assert WriteBack(cs, rs) == [cs[0]] + rest;
      Append(done, rest, cs[0]);
    }
  }

  lemma {:induction false} Append<T>(done: seq<T>, rest: seq<T>, x: T)
    ensures done + ([x] + rest) == done + [x] + rest
    ensures |[] + [x] + rest| == 1 + |rest|
  {}

  function SpendPool(cs: seq<Contribution>, spend: int): (r: seq<Contribution>)
    ensures |r| == |cs|
  {
    if spend <= 0 || Shares(cs) == [] then cs
    else WriteBack(cs, Apportionment.Reductions(Shares(cs), spend))
  }

  lemma {:induction false} SharesTotal(cs: seq<Contribution>)
    requires ContributionsOk(cs)
    ensures Apportionment.TotalRemaining(Shares(cs)) == Remaining(cs)
  {
    if cs != [] {
      SharesTotal(cs[1..]);
      if cs[0].remaining > 0 {
        assert Shares(cs)[1..] == Shares(cs[1..]);
      } else {
        assert Shares(cs) == Shares(cs[1..]);
      }
    }
  }

  ghost predicate WithinShares(cs: seq<Contribution>, rs: seq<int>) {
    |rs| == |Shares(cs)| && forall i :: 0 <= i < |rs| ==> 0 <= rs[i] <= Shares(cs)[i].remaining
  }

  lemma {:induction false} SharesStep(cs: seq<Contribution>, rs: seq<int>)
    requires cs != [] && WithinShares(cs, rs)
    ensures cs[0].remaining > 0 ==> |rs| > 0 && 0 <= rs[0] <= cs[0].remaining && WithinShares(cs[1..], rs[1..])
    ensures cs[0].remaining <= 0 ==> WithinShares(cs[1..], rs)
  {
    if cs[0].remaining > 0 {
      assert Shares(cs)[1..] == Shares(cs[1..]);
    } else {
      assert Shares(cs) == Shares(cs[1..]);
    }
  }

  /** No reduction is ever clipped, so the pool shrinks by exactly their sum. */
  lemma {:induction false} WriteBackExact(cs: seq<Contribution>, rs: seq<int>)
    requires ContributionsOk(cs) && WithinShares(cs, rs)
    ensures Remaining(WriteBack(cs, rs)) == Remaining(cs) - Sum(rs)
    ensures ContributionsOk(WriteBack(cs, rs))
  {
    if cs != [] {
      SharesStep(cs, rs);
      WriteBackExact(cs[1..], if cs[0].remaining > 0 then rs[1..] else rs);
    }
  }

  lemma {:induction false} WriteBackShape(cs: seq<Contribution>, rs: seq<int>, i: nat)
    requires |rs| == |Shares(cs)| && i < |cs|
    ensures WriteBack(cs, rs)[i] == cs[i].(remaining := WriteBack(cs, rs)[i].remaining)
  {
    if i > 0 {
      WriteBackShape(cs[1..], if cs[0].remaining > 0 then rs[1..] else rs, i - 1);
    }
  }

  /** A spend the pool can cover leaves it by exactly that much, and touches nothing but what remains. */
  lemma {:induction false} SpendPoolExact(cs: seq<Contribution>, spend: int)
    requires ContributionsOk(cs) && 0 <= spend <= Remaining(cs)
    ensures Remaining(SpendPool(cs, spend)) == Remaining(cs) - spend
    ensures ContributionsOk(SpendPool(cs, spend))
    ensures forall i :: 0 <= i < |cs| ==>
      SpendPool(cs, spend)[i] == cs[i].(remaining := SpendPool(cs, spend)[i].remaining)
  {
    SharesTotal(cs);
    if spend > 0 {
      assert Shares(cs) != [];
      Apportionment.ExactApportionment(Shares(cs), spend);
      WriteBackExact(cs, Apportionment.Reductions(Shares(cs), spend));
      forall i | 0 <= i < |cs| ensures SpendPool(cs, spend)[i] == cs[i].(remaining := SpendPool(cs, spend)[i].remaining) {
        WriteBackShape(cs, Apportionment.Reductions(Shares(cs), spend), i);
      }
    }
  }

  /** A pool spend as settlement books it: an audit row on the issuer and the pool reduced. */
  function SpendKey(s: State, issuer: Device, k: KeyId, amount: int): State
    requires k in s.keys
  {
    var key := s.keys[k];
    s.(books := Audit(s.books, issuer, k, amount),
       keys := s.keys[k := key.(consumed := key.consumed + amount, contributions := SpendPool(key.contributions, amount))])
  }

  function Audit(b: Books, issuer: Device, k: KeyId, amount: int): Books {
    Books(Touch(b, issuer).balances, b.rows + [Row(issuer, PoolSpent(k), -amount)])
  }

  lemma {:induction false} AuditKeeps(b: Books, sessions: map<Device, Session>, issuer: Device, k: KeyId, amount: int)
    requires BooksOk(b, sessions)
    ensures BooksOk(Audit(b, issuer, k, amount), sessions)
    ensures Total(Audit(b, issuer, k, amount).balances) == Total(b.balances)
  {
    TouchKeeps(b, sessions, issuer);
    forall d ensures RowSum(Audit(b, issuer, k, amount).rows, d) == RowSum(b.rows, d) {
      RowSumAppend(b.rows, Row(issuer, PoolSpent(k), -amount), d);
    }
  }

  /** One key's pool moves, and neither another key nor an account nor a provider does. */
  ghost predicate OnlyPool(s: State, t: State, k: KeyId, amount: int) {
    && k in t.keys && PoolOf(t.keys, k) == PoolOf(s.keys, k) + amount
    && (forall j :: j != k ==> (j in t.keys <==> j in s.keys) && (j in s.keys ==> t.keys[j] == s.keys[j]))
    && t.accounts == s.accounts && t.earnings == s.earnings
  }

  lemma {:induction false} SpendKeyKeeps(s: State, now: int, issuer: Device, k: KeyId, amount: int)
    requires Inv(s, now) && k in s.keys && s.keys[k].funded && 0 <= amount <= Remaining(s.keys[k].contributions)
    ensures Inv(SpendKey(s, issuer, k, amount), now)
    ensures Credits(SpendKey(s, issuer, k, amount)) == Credits(s) - amount
    ensures OnlyPool(s, SpendKey(s, issuer, k, amount), k, -amount)
    ensures forall e :: Get(SpendKey(s, issuer, k, amount).books.balances, e) == Get(s.books.balances, e)
  {
    hide BooksOk, AccountsOk, EarningsOk, PoolsAgree, KeyOk, SpendPool, Remaining, PoolEffect, OnlyPool, Touch, Total;
    var t, key := SpendKey(s, issuer, k, amount), s.keys[k];
    assert KeyOk(key, now);
    SpentKeyOk(key, now, amount);
    AuditKeeps(s.books, s.sessions, issuer, k, amount);
    SpentPoolAgrees(s, issuer, k, t.keys[k], amount);
    PoolsUpdate(s.keys, k, t.keys[k]);
    SpendKeyMoves(s, now, issuer, k, amount);
  }

  lemma {:induction false} SpentKeyOk(key: ShareKey, now: int, amount: int)
    requires KeyOk(key, now) && key.funded && 0 <= amount <= Remaining(key.contributions)
    ensures var key' := key.(consumed := key.consumed + amount, contributions := SpendPool(key.contributions, amount));
      KeyOk(key', now) && Remaining(key'.contributions) == Remaining(key.contributions) - amount
  {
    hide SpendPool, Remaining;
    SpendPoolExact(key.contributions, amount);
  }

  lemma {:induction false} SpentPoolAgrees(s: State, issuer: Device, k: KeyId, key: ShareKey, amount: int)
    requires PoolsAgree(s.keys, s.books.rows) && Remaining(key.contributions) == PoolOf(s.keys, k) - amount
    ensures PoolsAgree(s.keys[k := key], s.books.rows + [Row(issuer, PoolSpent(k), -amount)])
  {
    hide PoolsAgree, Remaining;
    PoolRowAgrees(s.keys, s.books.rows, Row(issuer, PoolSpent(k), -amount), k, key);
  }

  lemma {:induction false} SpendKeyMoves(s: State, now: int, issuer: Device, k: KeyId, amount: int)
    requires KeysOk(s.keys, now) && k in s.keys && s.keys[k].funded && 0 <= amount <= Remaining(s.keys[k].contributions)
    ensures OnlyPool(s, SpendKey(s, issuer, k, amount), k, -amount)
    ensures forall e :: Get(SpendKey(s, issuer, k, amount).books.balances, e) == Get(s.books.balances, e)
  {
    hide SpendPool, Remaining, KeyOk;
    assert KeyOk(s.keys[k], now);
    SpentKeyOk(s.keys[k], now, amount);
  }

  // ---- paying into a pool ----

  /** A device's credits moved into a key's pool. */
  function FundPool(s: State, d: Device, k: KeyId, key: ShareKey, amount: int): State {
    s.(books := Post(s.books, d, ShareKeyFund(k), -amount), keys := s.keys[k := key])
  }

  lemma {:induction false} FundPoolMoves(s: State, d: Device, k: KeyId, key: ShareKey, amount: int)
    requires Remaining(key.contributions) == PoolOf(s.keys, k) + amount
    ensures OnlyPool(s, FundPool(s, d, k, key, amount), k, amount)
    ensures OnlyMoves(s.books.balances, FundPool(s, d, k, key, amount).books.balances, d, -amount)
  {
    hide Remaining;
  }

  lemma {:induction false} FundPoolKeeps(s: State, now: int, d: Device, k: KeyId, key: ShareKey, amount: int)
    requires Inv(s, now) && 0 <= amount <= Get(s.books.balances, d)
    requires KeyOk(key, now) && Remaining(key.contributions) == PoolOf(s.keys, k) + amount
    ensures Inv(FundPool(s, d, k, key, amount), now)
    ensures Credits(FundPool(s, d, k, key, amount)) == Credits(s)
    ensures OnlyPool(s, FundPool(s, d, k, key, amount), k, amount)
    ensures OnlyMoves(s.books.balances, FundPool(s, d, k, key, amount).books.balances, d, -amount)
  {
    hide BooksOk, AccountsOk, EarningsOk, PoolsAgree, KeyOk, Remaining, OnlyPool, OnlyMoves, Total;
    FundPoolMoves(s, d, k, key, amount);
    PostKeeps(s.books, s.sessions, d, ShareKeyFund(k), -amount);
    PoolRowAgrees(s.keys, s.books.rows, Row(d, ShareKeyFund(k), -amount), k, key);
    PoolsUpdate(s.keys, k, key);
  }

  /** A key replaced by one with the same pool. */
  lemma {:induction false} RekeyKeeps(s: State, now: int, k: KeyId, key: ShareKey)
    requires Inv(s, now) && KeyOk(key, now) && Remaining(key.contributions) == PoolOf(s.keys, k)
    ensures Inv(s.(keys := s.keys[k := key]), now) && Credits(s.(keys := s.keys[k := key])) == Credits(s)
  {
    hide BooksOk, AccountsOk, EarningsOk, KeyOk;
    PoolsUpdate(s.keys, k, key);
  }

  lemma {:induction false} RemainingAppend(cs: seq<Contribution>, c: Contribution)
    ensures Remaining(cs + [c]) == Remaining(cs) + c.remaining
  {
    if cs == [] {
      assert cs + [c] == [c];
    } else {
      assert (cs + [c])[1..] == cs[1..] + [c];
      RemainingAppend(cs[1..], c);
    }
  }

  predicate Active(key: ShareKey, issuer: Device, now: int) {
    key.issuer == issuer && key.revokedAt.None? && key.expiresAt > now
  }

  function Mint(s: State, now: int, issuer: Device, k: KeyId, contribution: nat, expiresIn: int, budget: int): Outcome {
    if !(MIN_EXPIRES_IN <= expiresIn <= MAX_EXPIRES_IN && MIN_BUDGET <= budget <= MAX_BUDGET) then Err(InvalidAmount)
    else if |set j | j in s.keys && Active(s.keys[j], issuer, now)| >= MAX_ACTIVE_PER_ISSUER then Err(TooManyKeys)
    else if Get(s.books.balances, issuer) < budget then Err(InsufficientBalance)
    else if k in s.keys || issuer !in s.devices then Err(ConstraintFailed)
    else
      var first := Contribution(contribution, issuer, budget, budget, now, false);
      Ok(FundPool(s, issuer, k, ShareKey(issuer, now + expiresIn, budget, 0, None, true, None, [first]), budget))
  }

  function Fund(s: State, now: int, sender: Device, k: KeyId, contribution: nat, amount: int): Outcome {
    if amount <= 0 then Err(InsufficientBalance)
    else if k !in s.keys then Err(NotFound)
    else if s.keys[k].revokedAt.Some? then Err(Revoked)
    else if s.keys[k].expiresAt <= now then Err(Expired)
    else if !s.keys[k].funded then Err(NotMigrated)
    else if Get(s.books.balances, sender) < amount then Err(InsufficientBalance)
    else
      var key, more := s.keys[k], Contribution(contribution, sender, amount, amount, now, false);
      var t := s.(devices := s.devices + {sender});
      Ok(FundPool(t, sender, k, key.(budget := key.budget + amount, contributions := key.contributions + [more]), amount))
  }

  /** A new key of the issuer's that expires when asked to, with its whole budget as its one contribution, and one funding row. */
  ghost predicate Minted(s: State, t: State, now: int, issuer: Device, k: KeyId, contribution: nat, expiresIn: int, budget: int) {
    && k !in s.keys && t.books.rows == s.books.rows + [Row(issuer, ShareKeyFund(k), -budget)]
    && t == s.(books := t.books, keys := s.keys[k := ShareKey(issuer, now + expiresIn, budget, 0, None, true, None,
                                                              [Contribution(contribution, issuer, budget, budget, now, false)])])
  }

  /** When a key is minted: a lifetime from a minute to thirty days, a budget the issuer has, and fewer than fifty live keys. */
  lemma {:induction false} MintRefusals(s: State, now: int, issuer: Device, k: KeyId, contribution: nat, expiresIn: int, budget: int)
    ensures Mint(s, now, issuer, k, contribution, expiresIn, budget).Ok? <==>
      && 60 <= expiresIn <= 30 * 24 * 60 * 60 && 1 <= budget <= 50_000_000 && budget <= Get(s.books.balances, issuer)
      && issuer in s.devices && k !in s.keys
      && |set j | j in s.keys && s.keys[j].issuer == issuer && s.keys[j].revokedAt.None? && s.keys[j].expiresAt > now| < 50
  {
    assert (set j | j in s.keys && s.keys[j].issuer == issuer && s.keys[j].revokedAt.None? && s.keys[j].expiresAt > now)
      == set j | j in s.keys && Active(s.keys[j], issuer, now);
  }

  /** The budget raised, a contribution of the sender's added after the others, and one funding row. */
  ghost predicate ToppedUp(s: State, t: State, now: int, sender: Device, k: KeyId, contribution: nat, amount: int) {
    && k in s.keys && t.books.rows == s.books.rows + [Row(sender, ShareKeyFund(k), -amount)]
    && t == s.(devices := s.devices + {sender}, books := t.books,
               keys := s.keys[k := s.keys[k].(budget := s.keys[k].budget + amount,
                 contributions := s.keys[k].contributions + [Contribution(contribution, sender, amount, amount, now, false)])])
  }

  lemma {:induction false} FundRefusals(s: State, now: int, sender: Device, k: KeyId, contribution: nat, amount: int)
    ensures var r := Fund(s, now, sender, k, contribution, amount);
      && (r.Ok? <==>
            && 0 < amount <= Get(s.books.balances, sender)
            && k in s.keys && s.keys[k].funded && s.keys[k].revokedAt.None? && s.keys[k].expiresAt > now)
      && (r.Ok? ==> ToppedUp(s, r.value, now, sender, k, contribution, amount))
  {}

  lemma {:induction false} MintKeeps(s: State, now: int, issuer: Device, k: KeyId, contribution: nat, expiresIn: int, budget: int)
    requires Inv(s, now) && Mint(s, now, issuer, k, contribution, expiresIn, budget).Ok?
    ensures var t := Mint(s, now, issuer, k, contribution, expiresIn, budget).value;
      && Inv(t, now) && Credits(t) == Credits(s)
      && OnlyMoves(s.books.balances, t.books.balances, issuer, -budget) && OnlyPool(s, t, k, budget)
      && Minted(s, t, now, issuer, k, contribution, expiresIn, budget)
  {
    hide BooksOk, AccountsOk, EarningsOk, PoolsAgree, OnlyPool, OnlyMoves;
    var first := Contribution(contribution, issuer, budget, budget, now, false);
    assert Remaining([first]) == budget;
    FundPoolKeeps(s, now, issuer, k, ShareKey(issuer, now + expiresIn, budget, 0, None, true, None, [first]), budget);
  }

  lemma {:induction false} FundedKeyOk(key: ShareKey, now: int, more: Contribution, amount: int)
    requires KeyOk(key, now) && key.funded && key.revokedAt.None? && key.expiresAt > now
    requires amount >= 0 && more.remaining == amount && !more.refunded
    ensures var key' := key.(budget := key.budget + amount, contributions := key.contributions + [more]);
      KeyOk(key', now) && Remaining(key'.contributions) == Remaining(key.contributions) + amount
  {
    RemainingAppend(key.contributions, more);
  }

  lemma {:induction false} FundKeeps(s: State, now: int, sender: Device, k: KeyId, contribution: nat, amount: int)
    requires Inv(s, now) && Fund(s, now, sender, k, contribution, amount).Ok?
    ensures var t := Fund(s, now, sender, k, contribution, amount).value;
      && Inv(t, now) && Credits(t) == Credits(s)
      && OnlyMoves(s.books.balances, t.books.balances, sender, -amount) && OnlyPool(s, t, k, amount)
      && ToppedUp(s, t, now, sender, k, contribution, amount)
  {
    hide BooksOk, AccountsOk, EarningsOk, PoolsAgree, KeyOk, FundPool, ToppedUp;
    FundRefusals(s, now, sender, k, contribution, amount);
    var key, more := s.keys[k], Contribution(contribution, sender, amount, amount, now, false);
    FundedKeyOk(key, now, more, amount);
    var key' := key.(budget := key.budget + amount, contributions := key.contributions + [more]);
    FundPoolKeeps(s.(devices := s.devices + {sender}), now, sender, k, key', amount);
  }

  // ---- refunds ----

  function CloseOut(c: Contribution): Contribution {
    if c.refunded then c else c.(remaining := 0, refunded := true)
  }

  function Closed(cs: seq<Contribution>): (r: seq<Contribution>)
    ensures |r| == |cs| && forall i :: 0 <= i < |cs| ==> r[i] == CloseOut(cs[i])
  {
    seq(|cs|, i requires 0 <= i < |cs| => CloseOut(cs[i]))
  }

  /** Each unrefunded contribution's remainder, back to its funder. */
  function PayBack(b: Books, k: KeyId, cs: seq<Contribution>): Books
    decreases |cs|
  {
    if cs == [] then b else PayBack(PayBackOne(b, k, cs[0]), k, cs[1..])
  }

  function PayBackOne(b: Books, k: KeyId, c: Contribution): Books {
    if c.refunded then b
    else if c.remaining > 0 then Post(b, c.funder, ShareKeyRefund(k), c.remaining)
    else Touch(b, c.funder)
  }

  /** The key's pool paid back and the key settled. */
  function Refund(s: State, k: KeyId, key: ShareKey, now: int): State {
    s.(books := PayBack(s.books, k, key.contributions),
       keys := s.keys[k := key.(contributions := Closed(key.contributions), settledAt := Some(now))])
  }

  /** What a funder still has in a pool. */
  function Stake(cs: seq<Contribution>, funder: Device): int {
    if cs == [] then 0 else (if cs[0].funder == funder then cs[0].remaining else 0) + Stake(cs[1..], funder)
  }

  ghost predicate PaidBack(b: Books, t: Books, sessions: map<Device, Session>, k: KeyId, amount: int) {
    && BooksOk(t, sessions) && Total(t.balances) == Total(b.balances) + amount
    && (forall j :: PoolFlow(t.rows, j) == PoolFlow(b.rows, j) - (if j == k then amount else 0))
  }

  lemma {:induction false} PayBackOneEffect(b: Books, sessions: map<Device, Session>, k: KeyId, c: Contribution)
    requires BooksOk(b, sessions) && c.remaining >= 0 && (c.refunded ==> c.remaining == 0)
    ensures PaidBack(b, PayBackOne(b, k, c), sessions, k, c.remaining)
    ensures forall f :: Get(PayBackOne(b, k, c).balances, f) == Get(b.balances, f) + (if f == c.funder then c.remaining else 0)
  {
    hide BooksOk, PoolFlow, Total;
    var t := PayBackOne(b, k, c);
    TouchKeeps(b, sessions, c.funder);
    if c.remaining > 0 {
      PostKeeps(b, sessions, c.funder, ShareKeyRefund(k), c.remaining);
      forall j ensures PoolFlow(t.rows, j) == PoolFlow(b.rows, j) - (if j == k then c.remaining else 0) {
        PoolFlowAppend(b.rows, Row(c.funder, ShareKeyRefund(k), c.remaining), j);
      }
    }
  }

  lemma {:induction false} PayBackEffect(b: Books, sessions: map<Device, Session>, k: KeyId, cs: seq<Contribution>)
    requires BooksOk(b, sessions) && ContributionsOk(cs)
    ensures PaidBack(b, PayBack(b, k, cs), sessions, k, Remaining(cs))
    ensures forall f :: Get(PayBack(b, k, cs).balances, f) == Get(b.balances, f) + Stake(cs, f)
    decreases |cs|
  {
    hide PayBackOne, BooksOk;
    if cs != [] {
      PayBackOneEffect(b, sessions, k, cs[0]);
      PayBackEffect(PayBackOne(b, k, cs[0]), sessions, k, cs[1..]);
    }
  }

  lemma {:induction false} ClosedIsEmpty(cs: seq<Contribution>)
    requires ContributionsOk(cs)
    ensures Remaining(Closed(cs)) == 0 && ContributionsOk(Closed(cs))
  {
    if cs != [] {
      ClosedIsEmpty(cs[1..]);
      assert Closed(cs)[1..] == Closed(cs[1..]);
    }
  }

  /** A refund empties the pool, gives every funder exactly their stake, and settles the key for good. */
  lemma {:induction false} RefundReturnsStakes(s: State, now: int, k: KeyId, key: ShareKey)
    requires Inv(s, now) && k in s.keys && s.keys[k] == key.(revokedAt := s.keys[k].revokedAt)
    requires key.funded && !Settled(key) && (key.revokedAt.Some? || key.expiresAt <= now)
    ensures Inv(Refund(s, k, key, now), now) && Credits(Refund(s, k, key, now)) == Credits(s)
    ensures Settled(Refund(s, k, key, now).keys[k])
    ensures forall f :: Get(Refund(s, k, key, now).books.balances, f) == Get(s.books.balances, f) + Stake(key.contributions, f)
  {
    hide BooksOk, AccountsOk, EarningsOk, PoolFlow, Total, Stake, PayBack;
    var closed := key.(contributions := Closed(key.contributions), settledAt := Some(now));
    PayBackEffect(s.books, s.sessions, k, key.contributions);
    ClosedIsEmpty(key.contributions);
    PoolsUpdate(s.keys, k, closed);
    assert KeyOk(closed, now);
  }

  /** Revoking by the issuer; Err(NotFound) stands for the source's `false`. */
  function Revoke(s: State, now: int, issuer: Device, k: KeyId): Outcome {
    if k !in s.keys || s.keys[k].issuer != issuer || s.keys[k].revokedAt.Some? then Err(NotFound)
    else
      var key := s.keys[k].(revokedAt := Some(now));
      Ok(if key.funded && !Settled(key) then Refund(s, k, key, now) else s.(keys := s.keys[k := key]))
  }

  /** Revoking returns every stake once: nothing if the key was already settled. */
  lemma {:induction false} RevokeKeeps(s: State, now: int, issuer: Device, k: KeyId)
    requires Inv(s, now) && Revoke(s, now, issuer, k).Ok?
    ensures var t := Revoke(s, now, issuer, k).value;
      && Inv(t, now) && Credits(t) == Credits(s) && t.keys[k].revokedAt == Some(now)
      && (s.keys[k].funded && !Settled(s.keys[k]) ==> t.keys[k].settledAt == Some(now))
      && (!s.keys[k].funded || Settled(s.keys[k]) ==> t == s.(keys := s.keys[k := s.keys[k].(revokedAt := Some(now))]))
      && (forall j :: j in s.keys && j != k ==> j in t.keys && t.keys[j] == s.keys[j])
      && (forall f :: Get(t.books.balances, f)
            == Get(s.books.balances, f) + (if Settled(s.keys[k]) then 0 else Stake(s.keys[k].contributions, f)))
  {
    hide BooksOk, AccountsOk, EarningsOk, PoolsAgree;
    var key := s.keys[k].(revokedAt := Some(now));
    if key.funded && !Settled(key) {
      RefundReturnsStakes(s, now, k, key);
    } else {
      RekeyKeeps(s, now, k, key);
    }
  }

  /** The issuer can revoke a key of theirs once, and nobody else can. */
  lemma {:induction false} RevokeRefusals(s: State, now: int, issuer: Device, k: KeyId)
    ensures Revoke(s, now, issuer, k).Ok? <==> k in s.keys && s.keys[k].issuer == issuer && s.keys[k].revokedAt.None?
  {}

  predicate Refundable(key: ShareKey, now: int) {
    key.funded && key.revokedAt.None? && key.expiresAt <= now && !Settled(key)
  }

  /** The expiry sweep, over the keys in whatever order the query lists them. */
  function RefundExpired(s: State, now: int, order: seq<KeyId>): State
    decreases |order|
  {
    if order == [] then s
    else RefundExpired(RefundIfDue(s, now, order[0]), now, order[1..])
  }

  function RefundIfDue(s: State, now: int, k: KeyId): State {
    if k in s.keys && Refundable(s.keys[k], now) then Refund(s, k, s.keys[k], now) else s
  }

  lemma {:induction false} RefundExpiredSnoc(s: State, now: int, order: seq<KeyId>, k: KeyId)
    ensures RefundExpired(s, now, order + [k]) == RefundIfDue(RefundExpired(s, now, order), now, k)
    decreases |order|
  {
    if order == [] {
      assert (order + [k])[1..] == [];
    } else {
      assert (order + [k])[1..] == order[1..] + [k];
      RefundExpiredSnoc(RefundIfDue(s, now, order[0]), now, order[1..], k);
    }
  }

  /** A funded key that has run out unrevoked, with its pool still to be paid back. */
  predicate RunOut(key: ShareKey, now: int) {
    key.funded && key.revokedAt == None && key.settledAt == None && key.expiresAt <= now
  }

  /** The sweep settles exactly the listed keys that have run out, as of now, and leaves every other key as it is. */
  lemma {:induction false} ExpiredAreSettled(s: State, now: int, order: seq<KeyId>, k: KeyId)
    ensures var t := RefundExpired(s, now, order);
      && (k in t.keys <==> k in s.keys)
      && (k in s.keys && k in order && RunOut(s.keys[k], now) ==>
            t.keys[k] == s.keys[k].(settledAt := Some(now), contributions := t.keys[k].contributions))
      && (k in s.keys && !(k in order && RunOut(s.keys[k], now)) ==> t.keys[k] == s.keys[k])
    decreases |order|
  {
    hide PayBack, Closed;
    if order != [] {
      assert order == [order[0]] + order[1..];
      ExpiredAreSettled(RefundIfDue(s, now, order[0]), now, order[1..], k);
    }
  }

  lemma {:induction false} RefundExpiredKeeps(s: State, now: int, order: seq<KeyId>)
    requires Inv(s, now)
    ensures var t := RefundExpired(s, now, order); Inv(t, now) && Credits(t) == Credits(s) && t.accounts == s.accounts
    decreases |order|
  {
    hide Inv, Credits;
    if order != [] {
      var k := order[0];
      if k in s.keys && Refundable(s.keys[k], now) {
        RefundReturnsStakes(s, now, k, s.keys[k]);
      }
      RefundExpiredKeeps(RefundIfDue(s, now, k), now, order[1..]);
    }
  }

  // ---- legacy keys ----

  /** Retroactive funding of one key minted before pools existed: the key as migrated, and the debit. */
  function Migrated(key: ShareKey, now: int, contribution: nat, balance: int): (ShareKey, int) {
    if key.revokedAt.Some? || key.expiresAt <= now then
      var at := if key.revokedAt.Some? then key.revokedAt.value else now;
      var created := if key.revokedAt.Some? then key.revokedAt.value else key.expiresAt;
      var c := Contribution(contribution, key.issuer, Max(key.budget, 1), 0, created, true);
      (key.(funded := true, settledAt := Some(at), contributions := [c]), 0)
    else
      var owed := Max(key.budget - key.consumed, 0);
      if owed == 0 then
        var c := Contribution(contribution, key.issuer, Max(key.budget, 1), 0, now, false);
        (key.(funded := true, contributions := [c]), 0)
      else
        var debit := Min(owed, Max(balance, 0));
        var c := Contribution(contribution, key.issuer, Max(debit, 1), debit, now, false);
        (key.(funded := true, budget := key.consumed + debit, contributions := [c]), debit)
  }

  predicate Owes(key: ShareKey, now: int) {
    key.revokedAt.None? && key.expiresAt > now && key.consumed < key.budget
  }

  /** A budget shrunk to nothing violates the table's CHECK. */
  function MigrateOne(s: State, now: int, k: KeyId, contribution: nat): Outcome
    requires k in s.keys && !s.keys[k].funded
  {
    var (key, debit) := Migrated(s.keys[k], now, contribution, Get(s.books.balances, s.keys[k].issuer));
    if key.budget < s.keys[k].budget && key.budget <= 0 then Err(ConstraintFailed)
    else if debit > 0 then Ok(FundPool(s, key.issuer, k, key, debit))
    else Ok(s.(books := if Owes(s.keys[k], now) then Touch(s.books, key.issuer) else s.books, keys := s.keys[k := key]))
  }

  /** The whole pass; one failure rolls everything back. */
  function Migrate(s: State, now: int, order: seq<(KeyId, nat)>): Outcome
    decreases |order|
  {
    if order == [] then Ok(s)
    else
      var (k, contribution) := order[0];
      if k !in s.keys || s.keys[k].funded then Migrate(s, now, order[1..])
      else match MigrateOne(s, now, k, contribution)
        case Err(e) => Err(e)
        case Ok(t) => Migrate(t, now, order[1..])
  }

  lemma {:induction false} MigratedKeyOk(key: ShareKey, now: int, contribution: nat, balance: int)
    requires KeyOk(key, now) && !key.funded && balance >= 0
    ensures var (key', debit) := Migrated(key, now, contribution, balance);
      && KeyOk(key', now) && key'.funded && Remaining(key'.contributions) == debit && 0 <= debit <= balance
  {
    var (key', debit) := Migrated(key, now, contribution, balance);
    assert |key'.contributions| == 1 && key'.contributions[1..] == [];
  }

  lemma {:induction false} MigrateOneKeeps(s: State, now: int, k: KeyId, contribution: nat)
    requires Inv(s, now) && k in s.keys && !s.keys[k].funded && MigrateOne(s, now, k, contribution).Ok?
    ensures var t := MigrateOne(s, now, k, contribution).value;
      && Inv(t, now) && Credits(t) == Credits(s) && t.accounts == s.accounts
      && t.keys.Keys == s.keys.Keys && t.keys[k].funded && (forall j :: j in s.keys && j != k ==> t.keys[j] == s.keys[j])
  {
    hide AccountsOk, EarningsOk, PoolsAgree, KeyOk, Migrated;
    var issuer := s.keys[k].issuer;
    assert Get(s.books.balances, issuer) >= 0 && PoolOf(s.keys, k) == 0 by {
      UnfundedIsEmpty(s.keys[k], now);
    }
    MigratedKeyOk(s.keys[k], now, contribution, Get(s.books.balances, issuer));
    MigratedIssuer(s.keys[k], now, contribution, Get(s.books.balances, issuer));
    var (key, debit) := Migrated(s.keys[k], now, contribution, Get(s.books.balances, issuer));
    if debit > 0 {
      FundPoolKeeps(s, now, issuer, k, key, debit);
    } else {
      TouchKeeps(s.books, s.sessions, issuer);
      RekeyKeeps(s.(books := Touch(s.books, issuer)), now, k, key);
      RekeyKeeps(s, now, k, key);
    }
  }

  lemma {:induction false} MigratedIssuer(key: ShareKey, now: int, contribution: nat, balance: int)
    ensures Migrated(key, now, contribution, balance).0.issuer == key.issuer
  {}

  lemma {:induction false} UnfundedIsEmpty(key: ShareKey, now: int)
    requires KeyOk(key, now) && !key.funded
    ensures Remaining(key.contributions) == 0
  {}

  function MigrateNext(o: Outcome, now: int, k: KeyId, contribution: nat): Outcome {
    match o
    case Err(e) => Err(e)
    case Ok(s) => if k !in s.keys || s.keys[k].funded then Ok(s) else MigrateOne(s, now, k, contribution)
  }

  lemma {:induction false} MigrateSnoc(s: State, now: int, order: seq<(KeyId, nat)>, k: KeyId, contribution: nat)
    ensures Migrate(s, now, order + [(k, contribution)]) == MigrateNext(Migrate(s, now, order), now, k, contribution)
    decreases |order|
  {
    hide MigrateOne;
    var longer := order + [(k, contribution)];
    if order == [] {
      assert longer[0] == (k, contribution) && longer[1..] == [];
    } else {
      assert longer[0] == order[0] && longer[1..] == order[1..] + [(k, contribution)];
      match MigrateNext(Ok(s), now, order[0].0, order[0].1)
      case Err(_) =>
      case Ok(t) => MigrateSnoc(t, now, order[1..], k, contribution);
    }
  }

  /**
   What a legacy key becomes: one that is revoked or has run out is settled with nothing; another is backed by what its issuer
   can pay of what it still owes, and its budget cut to that.
   */
  lemma {:induction false} MigrationDebits(s: State, now: int, k: KeyId, contribution: nat)
    requires k in s.keys && !s.keys[k].funded && MigrateOne(s, now, k, contribution).Ok?
    requires Get(s.books.balances, s.keys[k].issuer) >= 0
    ensures var t, key := MigrateOne(s, now, k, contribution).value, s.keys[k];
      var live := key.revokedAt.None? && key.expiresAt > now;
      var owed := if live && key.budget > key.consumed then key.budget - key.consumed else 0;
      var paid := if owed <= Get(s.books.balances, key.issuer) then owed else Get(s.books.balances, key.issuer);
      && OnlyMoves(s.books.balances, t.books.balances, key.issuer, -paid)
      && t.books.rows == (if paid > 0 then s.books.rows + [Row(key.issuer, ShareKeyFund(k), -paid)] else s.books.rows)
      && t == s.(books := t.books, keys := s.keys[k := t.keys[k]])
      && t.keys[k].funded && Remaining(t.keys[k].contributions) == paid
      && (t.keys[k].settledAt.Some? <==> key.settledAt.Some? || !live)
      && t.keys[k].budget == (if owed > 0 then key.consumed + paid else key.budget)
      && t.keys[k] == key.(funded := true, settledAt := t.keys[k].settledAt, budget := t.keys[k].budget, contributions := t.keys[k].contributions)
      && (forall c :: c in t.keys[k].contributions ==> c.funder == key.issuer && (c.refunded <==> !live))
  {
    hide Remaining;
    OneContribution(s.keys[k], now, contribution, Get(s.books.balances, s.keys[k].issuer));
  }

  /** A legacy key cannot be migrated exactly if it still owes, nothing was spent on it, and its issuer has nothing. */
  lemma {:induction false} MigrationRefusals(s: State, now: int, k: KeyId, contribution: nat)
    requires k in s.keys && !s.keys[k].funded && KeyOk(s.keys[k], now) && Get(s.books.balances, s.keys[k].issuer) >= 0
    ensures MigrateOne(s, now, k, contribution).Err? <==>
      var key := s.keys[k];
      key.revokedAt.None? && key.expiresAt > now && key.budget > 0 == key.consumed && Get(s.books.balances, key.issuer) == 0
  {
    hide Remaining;
  }

  lemma {:induction false} OneContribution(key: ShareKey, now: int, contribution: nat, balance: int)
    ensures var (key', debit) := Migrated(key, now, contribution, balance);
      |key'.contributions| == 1 && Remaining(key'.contributions) == key'.contributions[0].remaining == debit
  {
    var (key', _) := Migrated(key, now, contribution, balance);
    assert key'.contributions[1..] == [];
  }

  /** A migration keeps everything, mints nothing, and leaves every listed key funded. */
  lemma {:induction false} MigrateKeeps(s: State, now: int, order: seq<(KeyId, nat)>)
    requires Inv(s, now) && Migrate(s, now, order).Ok?
    ensures var t := Migrate(s, now, order).value;
      && Inv(t, now) && Credits(t) == Credits(s) && t.accounts == s.accounts && t.keys.Keys == s.keys.Keys
      && (forall k :: k in s.keys && s.keys[k].funded ==> t.keys[k].funded)
      && (forall i :: 0 <= i < |order| && order[i].0 in s.keys ==> t.keys[order[i].0].funded)
    decreases |order|
  {
    hide Inv, Credits, MigrateOne;
    if order != [] {
      var (k, contribution) := order[0];
      assert forall i :: 0 < i < |order| ==> order[i] == order[1..][i - 1];
      if k !in s.keys || s.keys[k].funded {
        MigrateKeeps(s, now, order[1..]);
      } else {
        MigrateOneKeeps(s, now, k, contribution);
        var t := MigrateOne(s, now, k, contribution).value;
        MigrateKeeps(t, now, order[1..]);
      }
    }
  }
}
