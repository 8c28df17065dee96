/** Minting into wallets, linking devices to accounts, transfers and sweeps. */
module Wallets {
  import opened Prelude
  import opened Credit

  /** A resolved transfer recipient. */
  datatype Target = ToDevice(device: Device) | ToAccount(account: Account)

  function Upsert(s: State, d: Device): State {
    if d in s.devices then s else s.(devices := s.devices + {d}, books := Touch(s.books, d))
  }

  /** The mint pool never goes below zero; grants beyond it are still paid. */
  function DrawMint(mint: int, amount: int): int { Max(0, mint - amount) }

  /** A grant to an existing wallet row; without one the source's read-back fails. */
  function GrantBonus(s: State, d: Device, amount: int): Outcome {
    if d !in s.books.balances then Err(NotFound)
    else Ok(s.(mint := DrawMint(s.mint, amount), books := Post(s.books, d, Bonus, amount)))
  }

  function MintTo(s: State, d: Device, amount: int): Outcome {
    if amount <= 0 then Err(InvalidAmount)
    else Ok(s.(devices := s.devices + {d}, mint := DrawMint(s.mint, amount), books := Post(s.books, d, AdminMint, amount)))
  }

  function GrantAccountBonus(s: State, a: Account, amount: int): Outcome {
    if a !in s.accounts.wallets then Err(ConstraintFailed)
    else Ok(s.(mint := DrawMint(s.mint, amount), accounts := PayAccount(s.accounts, a, amount)))
  }

  function NewWallet(): Wallet { Wallet(0, 0, 0, 0, None, false) }

  function Link(s: State, d: Device, a: Account): State {
    var wallets := if a in s.accounts.wallets then s.accounts.wallets else s.accounts.wallets[a := NewWallet()];
    s.(devices := s.devices + {d}, books := Touch(s.books, d),
       accounts := s.accounts.(wallets := wallets, links := s.accounts.links[d := a]))
  }

  function Unlink(s: State, requester: Device, d: Device): Outcome {
    if requester == d then Err(InvalidAmount)
    else if requester !in s.accounts.links || d !in s.accounts.links || s.accounts.links[d] != s.accounts.links[requester] then Err(NotLinked)
    else Ok(s.(accounts := s.accounts.(links := s.accounts.links - {d})))
  }

  predicate Exists(s: State, target: Target) {
    match target case ToDevice(d) => d in s.devices case ToAccount(a) => a in s.accounts.wallets
  }

  function Receive(s: State, target: Target, amount: int): State
    requires Exists(s, target)
  {
    match target
    case ToDevice(d) => s.(books := Post(s.books, d, TransferIn, amount))
    case ToAccount(a) => s.(accounts := PayAccount(s.accounts, a, amount))
  }

  function TransferFromDevice(s: State, sender: Device, target: Target, amount: int): Outcome {
    if amount <= 0 then Err(InvalidAmount)
    else if Get(s.books.balances, sender) < amount then Err(InsufficientBalance)
    else if !Exists(s, target) then Err(NotFound)
    else if target == ToDevice(sender) then Err(SameWallet)
    else Ok(Receive(s.(books := Post(s.books, sender, TransferOut, -amount)), target, amount))
  }

  function TransferFromAccount(s: State, sender: Account, target: Target, amount: int): Outcome {
    if amount <= 0 then Err(InvalidAmount)
    else if sender !in s.accounts.wallets then Err(NotLinked)
    else if s.accounts.wallets[sender].balance < amount then Err(InsufficientBalance)
    else if !Exists(s, target) then Err(NotFound)
    else if target == ToAccount(sender) then Err(SameWallet)
    else Ok(Receive(s.(accounts := PayAccount(s.accounts, sender, -amount)), target, amount))
  }

  /** A linked device's whole balance moved to the requester's account. */
  function Sweep(s: State, requester: Device, d: Device): Outcome {
    if requester !in s.accounts.links || d !in s.accounts.links || s.accounts.links[d] != s.accounts.links[requester] then Err(NotLinked)
    else if s.accounts.links[d] !in s.accounts.wallets then Err(ConstraintFailed)
    else
      var amount := Get(s.books.balances, d);
      if amount > 0
      then Ok(s.(books := Post(s.books, d, SweepOut, -amount), accounts := PayAccount(s.accounts, s.accounts.links[d], amount)))
      else Ok(s.(books := Touch(s.books, d)))
  }

  // ---- lemmas ----

  lemma {:induction false} UpsertKeeps(s: State, now: int, d: Device)
    requires Inv(s, now)
    ensures Inv(Upsert(s, d), now) && Credits(Upsert(s, d)) == Credits(s)
    ensures var t := Upsert(s, d);
      && t.devices == s.devices + {d} && t == s.(devices := t.devices, books := Books(t.books.balances, s.books.rows))
      && (d !in s.devices ==> d in t.books.balances)
      && forall e :: Get(t.books.balances, e) == Get(s.books.balances, e)
  {
    hide BooksOk, AccountsOk, EarningsOk, KeysOk, PoolsAgree;
    TouchKeeps(s.books, s.sessions, d);
  }

  /** A posting of either sign keeps the books exactly if it leaves no debt. */
  lemma {:induction false} PostIsExact(b: Books, sessions: map<Device, Session>, d: Device, kind: Kind, amount: int)
    requires BooksOk(b, sessions) && Plain(kind)
    ensures BooksOk(Post(b, d, kind, amount), sessions) <==> Get(b.balances, d) + amount >= 0
  {
    hide RowSum;
    if Get(b.balances, d) + amount >= 0 {
      PostKeeps(b, sessions, d, kind, amount);
    } else {
      assert Post(b, d, kind, amount).balances[d] < 0;
    }
  }

  /** A posting from outside, of either sign: exactly its amount, and sound exactly if the books are. */
  lemma {:induction false} PaidDevice(s: State, now: int, d: Device, kind: Kind, amount: int, t: State)
    requires Inv(s, now) && Plain(kind) && t.mint >= 0
    requires t == s.(devices := t.devices, mint := t.mint, books := Post(s.books, d, kind, amount))
    ensures Credits(t) == Credits(s) + amount
    ensures Inv(t, now) <==> BooksOk(t.books, t.sessions)
  {
    hide BooksOk, AccountsOk, EarningsOk, KeysOk, PoolsAgree, Total;
    TotalUpdate(s.books.balances, d, Get(s.books.balances, d) + amount);
    PlainRowLeavesPools(s.keys, s.books.rows, Row(d, kind, amount));
  }

  lemma {:induction false} PaidAccount(s: State, now: int, a: Account, amount: int, mint: nat)
    requires Inv(s, now) && a in s.accounts.wallets
    ensures var t := s.(mint := mint, accounts := PayAccount(s.accounts, a, amount));
      && Credits(t) == Credits(s) + amount
      && (Inv(t, now) <==> s.accounts.wallets[a].balance + amount >= 0)
  {
    hide BooksOk, EarningsOk, KeysOk, PoolsAgree, DollarsAgree, WithdrawalsOk, Total;
    var wallets := PayAccount(s.accounts, a, amount).wallets;
    assert WalletBalances(wallets) == WalletBalances(s.accounts.wallets)[a := s.accounts.wallets[a].balance + amount];
    TotalUpdate(WalletBalances(s.accounts.wallets), a, s.accounts.wallets[a].balance + amount);
    if s.accounts.wallets[a].balance + amount >= 0 {
      PayAccountKeeps(s.accounts, a, amount);
    } else {
      assert wallets[a].balance < 0;
    }
  }

  /** One device granted an amount: its balance, one row of that kind, and the mint pool down to zero at the least. */
  ghost predicate Granted(s: State, t: State, d: Device, kind: Kind, amount: int) {
    && OnlyMoves(s.books.balances, t.books.balances, d, amount) && t.books.rows == s.books.rows + [Row(d, kind, amount)]
    && t == s.(devices := t.devices, mint := if s.mint > amount then s.mint - amount else 0, books := t.books)
  }

  /** One account's balance moves, and no other account field. */
  ghost predicate OnlyAccount(s: State, t: State, a: Account, amount: int) {
    && a in s.accounts.wallets
    && t.accounts == s.accounts.(wallets := s.accounts.wallets[a := s.accounts.wallets[a].(balance := s.accounts.wallets[a].balance + amount)])
  }

  lemma {:induction false} GrantEffects(s: State, d: Device, a: Account, amount: int)
    ensures GrantBonus(s, d, amount).Ok? ==>
      Granted(s, GrantBonus(s, d, amount).value, d, Bonus, amount) && GrantBonus(s, d, amount).value.devices == s.devices
    ensures MintTo(s, d, amount).Ok? ==>
      Granted(s, MintTo(s, d, amount).value, d, AdminMint, amount) && MintTo(s, d, amount).value.devices == s.devices + {d}
    ensures GrantAccountBonus(s, a, amount).Ok? ==>
      var t := GrantAccountBonus(s, a, amount).value;
      OnlyAccount(s, t, a, amount) && t == s.(mint := if s.mint > amount then s.mint - amount else 0, accounts := t.accounts)
  {}

  /** A grant of either sign creates exactly its amount, and keeps the ledger sound exactly if it leaves no debt. */
  lemma {:induction false} GrantsKeep(s: State, now: int, d: Device, a: Account, amount: int)
    requires Inv(s, now)
    ensures GrantBonus(s, d, amount).Ok? ==>
      var t := GrantBonus(s, d, amount).value;
      && Credits(t) == Credits(s) + amount && (Inv(t, now) <==> Get(s.books.balances, d) + amount >= 0)
      && Granted(s, t, d, Bonus, amount) && t.devices == s.devices
    ensures MintTo(s, d, amount).Ok? ==>
      var t := MintTo(s, d, amount).value;
      && Inv(t, now) && Credits(t) == Credits(s) + amount
      && Granted(s, t, d, AdminMint, amount) && t.devices == s.devices + {d}
    ensures GrantAccountBonus(s, a, amount).Ok? ==>
      var t := GrantAccountBonus(s, a, amount).value;
      && Credits(t) == Credits(s) + amount && (Inv(t, now) <==> s.accounts.wallets[a].balance + amount >= 0)
      && OnlyAccount(s, t, a, amount) && t == s.(mint := if s.mint > amount then s.mint - amount else 0, accounts := t.accounts)
    ensures GrantBonus(s, d, amount).Ok? <==> d in s.books.balances
    ensures MintTo(s, d, amount).Ok? <==> amount > 0
    ensures GrantAccountBonus(s, a, amount).Ok? <==> a in s.accounts.wallets
  {
    GrantEffects(s, d, a, amount);
    hide Inv, Credits, Post, PayAccount, BooksOk, Granted, OnlyAccount;
    NoDebt(s, now, d);
    assert BooksOk(s.books, s.sessions) by { BooksAreSound(s, now); }
    PostIsExact(s.books, s.sessions, d, Bonus, amount);
    PostIsExact(s.books, s.sessions, d, AdminMint, amount);
    if d in s.books.balances {
      PaidDevice(s, now, d, Bonus, amount, GrantBonus(s, d, amount).value);
    }
    if amount > 0 {
      PaidDevice(s, now, d, AdminMint, amount, MintTo(s, d, amount).value);
    }
    if a in s.accounts.wallets {
      PaidAccount(s, now, a, amount, DrawMint(s.mint, amount));
    }
  }

  lemma {:induction false} BooksAreSound(s: State, now: int)
    requires Inv(s, now)
    ensures BooksOk(s.books, s.sessions)
  {}

  /** A bonus of minus one more than the balance is granted, and leaves a debt. */
  lemma {:induction false} OverdrawingBonus(s: State, d: Device)
    requires d in s.books.balances
    ensures var r := GrantBonus(s, d, -1 - s.books.balances[d]); r.Ok? && r.value.books.balances[d] == -1
  {}

  lemma {:induction false} NoDebt(s: State, now: int, d: Device)
    requires Inv(s, now)
    ensures Get(s.books.balances, d) >= 0
    ensures forall a :: a in s.accounts.wallets ==> s.accounts.wallets[a].balance >= 0
  {}

  lemma {:induction false} NewWalletAgrees(a: Accounts, x: Account)
    requires AccountsOk(a) && x !in a.wallets
    ensures AccountsOk(a.(wallets := a.wallets[x := NewWallet()]))
    ensures Total(WalletBalances(a.wallets[x := NewWallet()])) == Total(WalletBalances(a.wallets))
  {
    hide DollarsAgree;
    var wallets := a.wallets[x := NewWallet()];
    assert WalletBalances(wallets) == WalletBalances(a.wallets)[x := 0];
    TotalUpdate(WalletBalances(a.wallets), x, 0);
    NewWalletDollars(a, x);
    assert wallets.Keys == a.wallets.Keys + {x};
  }

  lemma {:induction false} NewWalletDollars(a: Accounts, x: Account)
    requires AccountsOk(a) && x !in a.wallets
    ensures DollarsAgree(a.wallets[x := NewWallet()], a.withdrawals, a.deposits)
  {
    hide Total, WithdrawalsOk, DepositedCents, DebitedCents, SubmittedCents;
    NoHistory(a, x);
  }

  lemma {:induction false} NoHistory(a: Accounts, x: Account)
    requires AccountsOk(a) && x !in a.wallets
    ensures Total(DepositedCents(a.deposits, x)) == 0
    ensures Total(DebitedCents(a.withdrawals, x)) == 0 && Total(SubmittedCents(a.withdrawals, x)) == 0
  {
    hide Total, DollarsAgree;
    AllZero(DepositedCents(a.deposits, x));
    AllZero(DebitedCents(a.withdrawals, x));
    AllZero(SubmittedCents(a.withdrawals, x));
  }

  lemma {:induction false} AllZero(m: map<string, int>)
    requires forall k :: k in m ==> m[k] == 0
    ensures Total(m) == 0
    decreases |m|
  {
    if m != map[] {
      var k :| k in m && Total(m) == m[k] + Total(m - {k});
      AllZero(m - {k});
    }
  }

  /** The device linked to the account and to no other, a missing wallet opened empty, and nothing moved. */
  ghost predicate Linked(s: State, t: State, d: Device, a: Account) {
    && t.accounts == s.accounts.(links := s.accounts.links[d := a], wallets := t.accounts.wallets)
    && t.accounts.wallets == (if a in s.accounts.wallets then s.accounts.wallets
                              else s.accounts.wallets[a := Wallet(0, 0, 0, 0, None, false)])
    && t == s.(devices := s.devices + {d}, books := Books(t.books.balances, s.books.rows), accounts := t.accounts)
    && d in t.books.balances && forall e :: Get(t.books.balances, e) == Get(s.books.balances, e)
  }

  lemma {:induction false} LinkIs(s: State, d: Device, a: Account)
    ensures Linked(s, Link(s, d, a), d, a)
  {}

  lemma {:induction false} LinkKeeps(s: State, now: int, d: Device, a: Account)
    requires Inv(s, now)
    ensures Inv(Link(s, d, a), now) && Credits(Link(s, d, a)) == Credits(s)
    ensures Linked(s, Link(s, d, a), d, a)
  {
    LinkIs(s, d, a);
    hide BooksOk, EarningsOk, KeysOk, PoolsAgree, DollarsAgree, WithdrawalsOk, Linked;
    TouchKeeps(s.books, s.sessions, d);
    if a !in s.accounts.wallets {
      NewWalletAgrees(s.accounts, a);
    }
  }

  lemma {:induction false} UnlinkKeeps(s: State, now: int, requester: Device, d: Device)
    requires Inv(s, now) && Unlink(s, requester, d).Ok?
    ensures var t := Unlink(s, requester, d).value;
      Inv(t, now) && Credits(t) == Credits(s) && t == s.(accounts := s.accounts.(links := s.accounts.links - {d}))
    ensures requester != d && requester in s.accounts.links && d in s.accounts.links && s.accounts.links[d] == s.accounts.links[requester]
  {
    hide BooksOk, EarningsOk, KeysOk, PoolsAgree, DollarsAgree, WithdrawalsOk;
  }

  /** Devices act for one another exactly when linked to one account. */
  lemma {:induction false} LinkRefusals(s: State, requester: Device, d: Device)
    ensures var together := requester in s.accounts.links && d in s.accounts.links && s.accounts.links[d] == s.accounts.links[requester];
      && (Unlink(s, requester, d).Ok? <==> together && requester != d)
      && (Sweep(s, requester, d).Ok? <==> together && s.accounts.links[d] in s.accounts.wallets)
  {}

  lemma {:induction false} ReceiveKeeps(s: State, now: int, target: Target, amount: nat)
    requires Inv(s, now) && Exists(s, target)
    ensures Inv(Receive(s, target, amount), now) && Credits(Receive(s, target, amount)) == Credits(s) + amount
  {
    hide BooksOk, EarningsOk, KeysOk, PoolsAgree, Post, DollarsAgree, WithdrawalsOk;
    match target
    case ToDevice(d) => EarnMoves(s.books, s.sessions, s.keys, d, TransferIn, amount);
    case ToAccount(a) => PayAccountKeeps(s.accounts, a, amount);
  }

  /** A registered device or an account with a wallet. */
  predicate Known(s: State, target: Target) {
    (target.ToDevice? ==> target.device in s.devices) && (target.ToAccount? ==> target.account in s.accounts.wallets)
  }

  /** The device balances after a transfer: the sender's down, the target's up, nobody else's. */
  ghost predicate Transferred(s: State, t: State, target: Target, amount: int, spent: map<Device, int>, wallets: map<Account, Wallet>) {
    match target
    case ToDevice(d) => OnlyMoves(spent, t.books.balances, d, amount) && t.accounts.wallets == wallets
    case ToAccount(a) =>
      && a in wallets && t.accounts.wallets == wallets[a := wallets[a].(balance := wallets[a].balance + amount)]
      && forall e :: Get(t.books.balances, e) == Get(spent, e)
  }

  /** A device transfer: who loses, who gains, on which rows, and that nothing else changes. */
  ghost predicate DeviceTransferred(s: State, t: State, sender: Device, target: Target, amount: int) {
    && (exists spent :: OnlyMoves(s.books.balances, spent, sender, -amount) && Transferred(s, t, target, amount, spent, s.accounts.wallets))
    && t.books.rows == s.books.rows + [Row(sender, TransferOut, -amount)] + (if target.ToDevice? then [Row(target.device, TransferIn, amount)] else [])
    && t == s.(books := t.books, accounts := s.accounts.(wallets := t.accounts.wallets))
  }

  ghost predicate AccountTransferred(s: State, t: State, sender: Account, target: Target, amount: int) {
    && sender in s.accounts.wallets
    && Transferred(s, t, target, amount, s.books.balances,
                   s.accounts.wallets[sender := s.accounts.wallets[sender].(balance := s.accounts.wallets[sender].balance - amount)])
    && t.books.rows == s.books.rows + (if target.ToDevice? then [Row(target.device, TransferIn, amount)] else [])
    && t == s.(books := t.books, accounts := s.accounts.(wallets := t.accounts.wallets))
  }

  lemma {:induction false} DeviceTransferEffect(s: State, sender: Device, target: Target, amount: int)
    ensures var r := TransferFromDevice(s, sender, target, amount);
      && (r.Ok? <==> 0 < amount <= Get(s.books.balances, sender) && Known(s, target) && target != ToDevice(sender))
      && (r.Ok? ==> DeviceTransferred(s, r.value, sender, target, amount))
  {
    if TransferFromDevice(s, sender, target, amount).Ok? {
      var spent := Post(s.books, sender, TransferOut, -amount).balances;
      assert OnlyMoves(s.books.balances, spent, sender, -amount);
      assert Transferred(s, TransferFromDevice(s, sender, target, amount).value, target, amount, spent, s.accounts.wallets);
    }
  }

  lemma {:induction false} AccountTransferEffect(s: State, sender: Account, target: Target, amount: int)
    ensures var r := TransferFromAccount(s, sender, target, amount);
      && (r.Ok? <==> 0 < amount && sender in s.accounts.wallets && amount <= s.accounts.wallets[sender].balance
                     && Known(s, target) && target != ToAccount(sender))
      && (r.Ok? ==> AccountTransferred(s, r.value, sender, target, amount))
  {
    assert s.books.rows + [] == s.books.rows;
  }

  /** A transfer moves money from its sender to the named target and creates none. */
  lemma {:induction false} TransferFromDeviceKeeps(s: State, now: int, sender: Device, target: Target, amount: int)
    requires Inv(s, now) && TransferFromDevice(s, sender, target, amount).Ok?
    ensures var t := TransferFromDevice(s, sender, target, amount).value;
      Inv(t, now) && Credits(t) == Credits(s) && DeviceTransferred(s, t, sender, target, amount)
  {
    hide BooksOk, AccountsOk, EarningsOk, KeysOk, PoolsAgree, Post, Receive, DeviceTransferred;
    DeviceTransferEffect(s, sender, target, amount);
    PostMoves(s.books, s.sessions, s.keys, sender, TransferOut, -amount);
    ReceiveKeeps(s.(books := Post(s.books, sender, TransferOut, -amount)), now, target, amount);
  }

  lemma {:induction false} TransferFromAccountKeeps(s: State, now: int, sender: Account, target: Target, amount: int)
    requires Inv(s, now) && TransferFromAccount(s, sender, target, amount).Ok?
    ensures var t := TransferFromAccount(s, sender, target, amount).value;
      Inv(t, now) && Credits(t) == Credits(s) && AccountTransferred(s, t, sender, target, amount)
  {
    hide BooksOk, AccountsOk, EarningsOk, KeysOk, PoolsAgree, Receive, AccountTransferred;
    AccountTransferEffect(s, sender, target, amount);
    PayAccountKeeps(s.accounts, sender, -amount);
    ReceiveKeeps(s.(accounts := PayAccount(s.accounts, sender, -amount)), now, target, amount);
  }

  lemma {:induction false} SweepKeeps(s: State, now: int, requester: Device, d: Device)
    requires Inv(s, now) && Sweep(s, requester, d).Ok?
    ensures var t, x, amount := Sweep(s, requester, d).value, s.accounts.links[d], Get(s.books.balances, d);
      && Inv(t, now) && Credits(t) == Credits(s)
      && OnlyMoves(s.books.balances, t.books.balances, d, -amount) && Get(t.books.balances, d) == 0
      && t.accounts.wallets == s.accounts.wallets[x := s.accounts.wallets[x].(balance := s.accounts.wallets[x].balance + amount)]
      && t.books.rows == (if amount > 0 then s.books.rows + [Row(d, SweepOut, -amount)] else s.books.rows)
    ensures requester in s.accounts.links && d in s.accounts.links && s.accounts.links[d] == s.accounts.links[requester]
  {
    hide EarningsOk, KeysOk, PoolsAgree, AccountsOk, BooksOk, Post, PayAccount, Touch, OnlyMoves, Total;
    var amount := Get(s.books.balances, d);
    NoDebt(s, now, d);
    if amount > 0 {
      PostMoves(s.books, s.sessions, s.keys, d, SweepOut, -amount);
      PayAccountKeeps(s.accounts, s.accounts.links[d], amount);
    } else {
      TouchKeeps(s.books, s.sessions, d);
    }
    SweepMoves(s, requester, d);
  }

  lemma {:induction false} SweepMoves(s: State, requester: Device, d: Device)
    requires Sweep(s, requester, d).Ok? && Get(s.books.balances, d) >= 0
    ensures var t, x, amount := Sweep(s, requester, d).value, s.accounts.links[d], Get(s.books.balances, d);
      && t.books.rows == (if amount > 0 then s.books.rows + [Row(d, SweepOut, -amount)] else s.books.rows)
      && OnlyMoves(s.books.balances, t.books.balances, d, -amount) && Get(t.books.balances, d) == 0
      && t.accounts.wallets == s.accounts.wallets[x := s.accounts.wallets[x].(balance := s.accounts.wallets[x].balance + amount)]
  {
  }
}
