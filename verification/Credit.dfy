/**
 The credit ledger's tables, the invariants every operation keeps, and the single-row updates
 operations are made of.
 */
module Credit {
  import opened Prelude

  type Device = string
  type Account = string
  type Provider = string
  type KeyId = string

  /** The device wallet that collects fees. */
  const OPS: Device := "__ops__"

  /** What a device ledger row records; share-key rows name the key. */
  datatype Kind =
    | Bonus | AdminMint | DirectEarn | AvailabilityEarn | AvailabilitySession | Spent | OpsFee
    | TransferOut | TransferIn | SweepOut
    | ShareKeyFund(key: KeyId) | ShareKeyRefund(key: KeyId)
    | PoolSpent(key: KeyId)  // a SPENT row whose money came out of a funded share key

  datatype Row = Row(device: Device, kind: Kind, amount: int)

  datatype Contribution = Contribution(id: nat, funder: Device, funded: int, remaining: int, createdAt: int, refunded: bool)

  /** A share key with its contributions, oldest first. */
  datatype ShareKey = ShareKey(issuer: Device, expiresAt: int, budget: int, consumed: int, revokedAt: Option<int>,
                               funded: bool, settledAt: Option<int>, contributions: seq<Contribution>)

  datatype Session = Session(model: Option<string>, accrued: int)

  datatype Wallet = Wallet(balance: int, usdc: int, deposited: int, withdrawn: int, address: Option<string>, enabled: bool)

  datatype WithdrawalStatus = Pending | Submitted(signature: string) | Rejected

  datatype Withdrawal = Withdrawal(account: Account, destination: string, cents: int, credits: int, status: WithdrawalStatus)

  datatype Deposit = Deposit(account: Account, address: string, cents: int, source: Option<string>)

  datatype ApiKey = ApiKey(limit: Option<int>, usage: int)

  /** Device wallets: the balances table and the append-only ledger. */
  datatype Books = Books(balances: map<Device, int>, rows: seq<Row>)

  /** Account wallets and everything that hangs off them. */
  datatype Accounts = Accounts(wallets: map<Account, Wallet>, links: map<Device, Account>, apiKeys: map<string, ApiKey>,
                               withdrawals: map<string, Withdrawal>, deposits: map<string, Deposit>)

  datatype State = State(devices: set<Device>, books: Books, sessions: map<Device, Session>, mint: int,
                         keys: map<KeyId, ShareKey>, accounts: Accounts,
                         providers: set<Provider>, earnings: map<Provider, int>)

  datatype Error =
    | InvalidAmount | InsufficientBalance | NotFound | SameWallet | NotLinked | Revoked | Expired | NotMigrated
    | TooManyKeys | ConstraintFailed | Overflow | NotEnabled | AddressRequired | AddressMismatch | AmountRequired
    | DepositConflict | WithdrawalConflict | SignatureConflict | NotPending | MissingField

  type Outcome = Result<State, Error>

  // ---- sums ----

  /** Credits a device's rows account for; a pool spend moved no wallet money. */
  function RowSum(rows: seq<Row>, d: Device): int {
    if rows == [] then 0
    else
      var n := |rows| - 1;
      RowSum(rows[..n], d) + (if rows[n].device == d && !rows[n].kind.PoolSpent? then rows[n].amount else 0)
  }

  /** A row's effect on a key's pool: funding pays in, refunds and spends take out. */
  function PoolEffect(r: Row, k: KeyId): int {
    match r.kind
    case ShareKeyFund(j) => if j == k then -r.amount else 0
    case ShareKeyRefund(j) => if j == k then -r.amount else 0
    case PoolSpent(j) => if j == k then r.amount else 0
    case _ => 0
  }

  /** Paid in, less paid back, less spent, over all rows that name the key. */
  function PoolFlow(rows: seq<Row>, k: KeyId): int {
    if rows == [] then 0
    else var n := |rows| - 1; PoolFlow(rows[..n], k) + PoolEffect(rows[n], k)
  }

  function Remaining(cs: seq<Contribution>): int {
    if cs == [] then 0 else cs[0].remaining + Remaining(cs[1..])
  }

  function PoolOf(keys: map<KeyId, ShareKey>, k: KeyId): int {
    if k in keys then Remaining(keys[k].contributions) else 0
  }

  function Accrued(sessions: map<Device, Session>, d: Device): int {
    if d in sessions then sessions[d].accrued else 0
  }

  function WalletBalances(wallets: map<Account, Wallet>): map<Account, int> {
    map a | a in wallets :: wallets[a].balance
  }

  function Pools(keys: map<KeyId, ShareKey>): map<KeyId, int> {
    map k | k in keys :: Remaining(keys[k].contributions)
  }

  /** All credits in existence: device, account and provider wallets and share-key pools. */
  ghost function Credits(s: State): int {
    Total(s.books.balances) + Total(WalletBalances(s.accounts.wallets)) + Total(s.earnings) + Total(Pools(s.keys))
  }

  // ---- invariants ----

  /** Each device's balance is what its rows and its open availability session say, and no less than zero. */
  ghost predicate BooksOk(b: Books, sessions: map<Device, Session>) {
    && (forall d :: d in b.balances ==> b.balances[d] >= 0)
    && (forall d :: Get(b.balances, d) == RowSum(b.rows, d) + Accrued(sessions, d))
    && (forall d :: d in sessions ==> sessions[d].accrued >= 0)
  }

  predicate Settled(key: ShareKey) { key.settledAt.Some? }

  ghost predicate ContributionsOk(cs: seq<Contribution>) {
    forall i :: 0 <= i < |cs| ==> cs[i].remaining >= 0 && (cs[i].refunded ==> cs[i].remaining == 0)
  }

  ghost predicate KeyOk(key: ShareKey, now: int) {
    && 0 <= key.consumed <= key.budget && ContributionsOk(key.contributions)
    && (!key.funded ==> key.contributions == [] && !Settled(key))
    && (key.funded && !Settled(key) ==>
          && Remaining(key.contributions) == key.budget - key.consumed && key.revokedAt.None?
          && forall i :: 0 <= i < |key.contributions| ==> !key.contributions[i].refunded)
    && (Settled(key) ==>
          && Remaining(key.contributions) == 0 && (key.revokedAt.Some? || key.expiresAt <= now)
          && forall i :: 0 <= i < |key.contributions| ==> key.contributions[i].refunded)
  }

  ghost predicate KeysOk(keys: map<KeyId, ShareKey>, now: int) {
    forall k :: k in keys ==> KeyOk(keys[k], now)
  }

  /** Every credit paid into a pool is still in it, was spent through it, or came back. */
  ghost predicate PoolsAgree(keys: map<KeyId, ShareKey>, rows: seq<Row>) {
    forall k :: PoolFlow(rows, k) == PoolOf(keys, k)
  }

  const CREDITS_PER_CENT := 10_000

  predicate Debited(w: Withdrawal) { !w.status.Rejected? }

  function CentsIf(b: bool, cents: int): int { if b then cents else 0 }

  function DebitedCents(ws: map<string, Withdrawal>, a: Account): map<string, int> {
    map r | r in ws :: CentsIf(ws[r].account == a && Debited(ws[r]), ws[r].cents)
  }

  function SubmittedCents(ws: map<string, Withdrawal>, a: Account): map<string, int> {
    map r | r in ws :: CentsIf(ws[r].account == a && ws[r].status.Submitted?, ws[r].cents)
  }

  function DepositedCents(ds: map<string, Deposit>, a: Account): map<string, int> {
    map g | g in ds :: CentsIf(ds[g].account == a, ds[g].cents)
  }

  /** An account's dollar totals are the sums of its deposits and withdrawal requests. */
  ghost predicate DollarsAgree(wallets: map<Account, Wallet>, ws: map<string, Withdrawal>, ds: map<string, Deposit>) {
    forall a :: a in wallets ==>
      && wallets[a].deposited == Total(DepositedCents(ds, a))
      && wallets[a].deposited - wallets[a].usdc == Total(DebitedCents(ws, a))
      && wallets[a].withdrawn == Total(SubmittedCents(ws, a))
  }

  ghost predicate WithdrawalsOk(ws: map<string, Withdrawal>, accounts: set<Account>) {
    && (forall r :: r in ws ==> ws[r].account in accounts && ws[r].cents > 0 && ws[r].credits == ws[r].cents * CREDITS_PER_CENT)
    && (forall r, q :: r in ws && q in ws && ws[r].status.Submitted? && ws[q].status == ws[r].status ==> r == q)
  }

  ghost predicate AccountsOk(a: Accounts) {
    && (forall x :: x in a.wallets ==> a.wallets[x].balance >= 0)
    && (forall d :: d in a.links ==> a.links[d] in a.wallets)
    && (forall g :: g in a.deposits ==> a.deposits[g].account in a.wallets && a.deposits[g].cents > 0)
    && DollarsAgree(a.wallets, a.withdrawals, a.deposits) && WithdrawalsOk(a.withdrawals, a.wallets.Keys)
  }

  ghost predicate EarningsOk(earnings: map<Provider, int>) {
    forall p :: p in earnings ==> earnings[p] >= 0
  }

  ghost predicate Inv(s: State, now: int) {
    && BooksOk(s.books, s.sessions) && s.mint >= 0
    && KeysOk(s.keys, now) && PoolsAgree(s.keys, s.books.rows)
    && AccountsOk(s.accounts) && EarningsOk(s.earnings)
  }

  // ---- updates of one row ----

  /** INSERT OR IGNORE INTO balances. */
  function Touch(b: Books, d: Device): Books {
    b.(balances := b.balances[d := Get(b.balances, d)])
  }

  /** A ledger row and the balance it moves. */
  function Post(b: Books, d: Device, kind: Kind, amount: int): Books {
    Books(b.balances[d := Get(b.balances, d) + amount], b.rows + [Row(d, kind, amount)])
  }

  function PostAll(b: Books, ds: seq<Device>, kind: Kind, amount: int): Books
    decreases |ds|
  {
    if ds == [] then b else PostAll(Post(b, ds[0], kind, amount), ds[1..], kind, amount)
  }

  function PayAccount(a: Accounts, x: Account, amount: int): Accounts
    requires x in a.wallets
  {
    a.(wallets := a.wallets[x := a.wallets[x].(balance := a.wallets[x].balance + amount)])
  }

  /** One device's balance moves, and no other. */
  ghost predicate OnlyMoves(a: map<Device, int>, b: map<Device, int>, d: Device, amount: int) {
    forall e :: Get(b, e) == Get(a, e) + if e == d then amount else 0
  }

  predicate Plain(kind: Kind) {
    !kind.ShareKeyFund? && !kind.ShareKeyRefund? && !kind.PoolSpent?
  }

  lemma {:induction false} RowSumAppend(rows: seq<Row>, r: Row, d: Device)
    ensures RowSum(rows + [r], d) == RowSum(rows, d) + (if r.device == d && !r.kind.PoolSpent? then r.amount else 0)
  {
    assert (rows + [r])[..|rows|] == rows;
  }

  lemma {:induction false} PoolFlowAppend(rows: seq<Row>, r: Row, k: KeyId)
    ensures PoolFlow(rows + [r], k) == PoolFlow(rows, k) + PoolEffect(r, k)
  {
    assert (rows + [r])[..|rows|] == rows;
  }

  /** A posting that leaves no debt keeps the books and moves exactly its amount. */
  lemma {:induction false} PostKeeps(b: Books, sessions: map<Device, Session>, d: Device, kind: Kind, amount: int)
    requires BooksOk(b, sessions) && !kind.PoolSpent? && Get(b.balances, d) + amount >= 0
    ensures BooksOk(Post(b, d, kind, amount), sessions)
    ensures Total(Post(b, d, kind, amount).balances) == Total(b.balances) + amount
  {
    var t := Post(b, d, kind, amount);
    forall e ensures Get(t.balances, e) == RowSum(t.rows, e) + Accrued(sessions, e) {
      RowSumAppend(b.rows, Row(d, kind, amount), e);
    }
    TotalUpdate(b.balances, d, Get(b.balances, d) + amount);
  }

  lemma {:induction false} PlainRowLeavesPools(keys: map<KeyId, ShareKey>, rows: seq<Row>, r: Row)
    requires PoolsAgree(keys, rows) && Plain(r.kind)
    ensures PoolsAgree(keys, rows + [r])
  {
    forall k ensures PoolFlow(rows + [r], k) == PoolOf(keys, k) {
      PoolFlowAppend(rows, r, k);
    }
  }

  /** What a run of plain postings keeps: books, pools, and the sum of money they move. */
  ghost predicate Moves(b: Books, t: Books, sessions: map<Device, Session>, keys: map<KeyId, ShareKey>, amount: int) {
    && BooksOk(t, sessions) && PoolsAgree(keys, t.rows)
    && Total(t.balances) == Total(b.balances) + amount
  }

  lemma {:induction false} PostMoves(b: Books, sessions: map<Device, Session>, keys: map<KeyId, ShareKey>, d: Device, kind: Kind, amount: int)
    requires BooksOk(b, sessions) && PoolsAgree(keys, b.rows) && Plain(kind) && Get(b.balances, d) + amount >= 0
    ensures Moves(b, Post(b, d, kind, amount), sessions, keys, amount)
  {
    PostKeeps(b, sessions, d, kind, amount);
    PlainRowLeavesPools(keys, b.rows, Row(d, kind, amount));
  }

  /** Paying in never needs a balance. */
  lemma {:induction false} EarnMoves(b: Books, sessions: map<Device, Session>, keys: map<KeyId, ShareKey>, d: Device, kind: Kind, amount: int)
    requires BooksOk(b, sessions) && PoolsAgree(keys, b.rows) && Plain(kind) && amount >= 0
    ensures Moves(b, Post(b, d, kind, amount), sessions, keys, amount)
  {
    PostMoves(b, sessions, keys, d, kind, amount);
  }

  lemma {:induction false} PostAllMoves(b: Books, sessions: map<Device, Session>, keys: map<KeyId, ShareKey>,
                                        ds: seq<Device>, kind: Kind, amount: int)
    requires BooksOk(b, sessions) && PoolsAgree(keys, b.rows) && Plain(kind) && amount >= 0
    ensures Moves(b, PostAll(b, ds, kind, amount), sessions, keys, amount * |ds|)
    decreases |ds|
  {
    hide BooksOk, PoolsAgree, Post;
    if ds != [] {
      EarnMoves(b, sessions, keys, ds[0], kind, amount);
      PostAllMoves(Post(b, ds[0], kind, amount), sessions, keys, ds[1..], kind, amount);
      assert amount * |ds| == amount + amount * |ds[1..]|;
    }
  }

  lemma {:induction false} TouchKeeps(b: Books, sessions: map<Device, Session>, d: Device)
    requires BooksOk(b, sessions)
    ensures BooksOk(Touch(b, d), sessions) && Total(Touch(b, d).balances) == Total(b.balances)
    ensures forall e :: Get(Touch(b, d).balances, e) == Get(b.balances, e)
  {
    TotalUpdate(b.balances, d, Get(b.balances, d));
    assert forall e :: Get(Touch(b, d).balances, e) == Get(b.balances, e);
  }

  lemma {:induction false} PayAccountKeeps(a: Accounts, x: Account, amount: int)
    requires AccountsOk(a) && x in a.wallets && a.wallets[x].balance + amount >= 0
    ensures AccountsOk(PayAccount(a, x, amount))
    ensures Total(WalletBalances(PayAccount(a, x, amount).wallets)) == Total(WalletBalances(a.wallets)) + amount
  {
    hide Total, WithdrawalsOk, DepositedCents, DebitedCents, SubmittedCents;
    var t := PayAccount(a, x, amount);
    forall y | y in t.wallets ensures t.wallets[y] == a.wallets[y].(balance := t.wallets[y].balance) && t.wallets[y].balance >= 0 {}
    assert WalletBalances(t.wallets) == WalletBalances(a.wallets)[x := a.wallets[x].balance + amount];
    TotalUpdate(WalletBalances(a.wallets), x, a.wallets[x].balance + amount);
    assert t.wallets.Keys == a.wallets.Keys;
  }

  /** Replacing one key moves the pools by exactly the change in its contributions. */
  lemma {:induction false} PoolsUpdate(keys: map<KeyId, ShareKey>, k: KeyId, key: ShareKey)
    ensures Total(Pools(keys[k := key])) == Total(Pools(keys)) - PoolOf(keys, k) + Remaining(key.contributions)
  {
    assert Pools(keys[k := key]) == Pools(keys)[k := Remaining(key.contributions)];
    TotalUpdate(Pools(keys), k, Remaining(key.contributions));
  }

  /** A row that names a key, together with the matching change of the key's pool. */
  lemma {:induction false} PoolRowAgrees(keys: map<KeyId, ShareKey>, rows: seq<Row>, r: Row, k: KeyId, key: ShareKey)
    requires PoolsAgree(keys, rows)
    requires Remaining(key.contributions) == PoolOf(keys, k) + PoolEffect(r, k)
    requires forall j :: j != k ==> PoolEffect(r, j) == 0
    ensures PoolsAgree(keys[k := key], rows + [r])
  {
    forall j ensures PoolFlow(rows + [r], j) == PoolOf(keys[k := key], j) {
      PoolFlowAppend(rows, r, j);
    }
  }
}
