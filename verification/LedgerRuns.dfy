/** Every run of the credit ledger: what holds in each reachable state, and where credits come from and go. */
module LedgerRuns {
  import opened Prelude
  import opened Credit
  import SharePools
  import Settlement
  import Wallets
  import Availability
  import Withdrawals

  datatype Op =
    | UpsertDevice(device: Device)
    | RecordBonus(device: Device, bonus: int)
    | AdminMintTo(device: Device, amount: int)
    | AccountBonus(account: Account, bonus: int)
    | LinkDevice(device: Device, account: Account)
    | UnlinkDevice(requester: Device, device: Device)
    | DeviceTransfer(sender: Device, target: Wallets.Target, amount: int)
    | AccountTransfer(from: Account, target: Wallets.Target, amount: int)
    | SweepDevice(requester: Device, device: Device)
    | SettleFleet(consumer: Settlement.Consumer, provider: Option<Device>, online: seq<Device>, cost: int)
    | SettleProvider(consumer: Settlement.Consumer, vendor: Provider, cost: int)
    | ProviderPayout(vendor: Provider, amount: int)
    | ReconcileAvailability(recipients: seq<Availability.Recipient>, listed: seq<Device>)
    | MintKey(issuer: Device, key: KeyId, contribution: nat, expiresIn: int, budget: int)
    | FundKey(sender: Device, key: KeyId, contribution: nat, amount: int)
    | RevokeKey(issuer: Device, key: KeyId)
    | RefundExpiredKeys(keys: seq<KeyId>)
    | MigrateKeys(legacy: seq<(KeyId, nat)>)
    | OnchainDeposit(requester: Device, address: Option<string>, signature: Option<string>, cents: Option<int>, source: Option<string>)
    | TreasuryDeposit(requester: Device, paid: string, usdc: int, source: Option<string>, treasury: string)
    | SubmitWithdrawal(requester: Device, request: Option<string>, destination: Option<string>, usdc: int, signature: Option<string>)
    | CompleteWithdrawal(id: string, paid: string)
    | RejectWithdrawal(id: string)

  function OnAccounts(s: State, r: Withdrawals.AccountsOutcome): Outcome {
    match r case Ok(a) => Ok(s.(accounts := a)) case Err(e) => Err(e)
  }

  function Apply(s: State, now: int, op: Op): Outcome {
    match op
    case UpsertDevice(d) => Ok(Wallets.Upsert(s, d))
    case RecordBonus(d, amount) => Wallets.GrantBonus(s, d, amount)
    case AdminMintTo(d, amount) => Wallets.MintTo(s, d, amount)
    case AccountBonus(a, amount) => Wallets.GrantAccountBonus(s, a, amount)
    case LinkDevice(d, a) => Ok(Wallets.Link(s, d, a))
    case UnlinkDevice(requester, d) => Wallets.Unlink(s, requester, d)
    case DeviceTransfer(sender, target, amount) => Wallets.TransferFromDevice(s, sender, target, amount)
    case AccountTransfer(sender, target, amount) => Wallets.TransferFromAccount(s, sender, target, amount)
    case SweepDevice(requester, d) => Wallets.Sweep(s, requester, d)
    case SettleFleet(consumer, provider, online, cost) => Settlement.SettleFleet(s, consumer, provider, online, cost)
    case SettleProvider(consumer, vendor, cost) => Settlement.SettleProvider(s, consumer, vendor, cost)
    case ProviderPayout(vendor, amount) => Settlement.Payout(s, vendor, amount)
    case ReconcileAvailability(recipients, listed) => Ok(Availability.Reconcile(s, recipients, listed))
    case MintKey(issuer, key, contribution, expiresIn, budget) => SharePools.Mint(s, now, issuer, key, contribution, expiresIn, budget)
    case FundKey(sender, key, contribution, amount) => SharePools.Fund(s, now, sender, key, contribution, amount)
    case RevokeKey(issuer, key) => SharePools.Revoke(s, now, issuer, key)
    case RefundExpiredKeys(keys) => Ok(SharePools.RefundExpired(s, now, keys))
    case MigrateKeys(legacy) => SharePools.Migrate(s, now, legacy)
    case OnchainDeposit(requester, address, signature, cents, source) =>
      OnAccounts(s, Withdrawals.DepositOnchain(s.accounts, requester, address, signature, cents, source))
    case TreasuryDeposit(requester, paid, usdc, source, treasury) =>
      OnAccounts(s, Withdrawals.DepositTreasury(s.accounts, requester, paid, usdc, source, treasury))
    case SubmitWithdrawal(requester, request, destination, usdc, signature) =>
      OnAccounts(s, Withdrawals.Submit(s.accounts, requester, request, destination, usdc, signature))
    case CompleteWithdrawal(id, paid) => OnAccounts(s, Withdrawals.Complete(s.accounts, id, paid))
    case RejectWithdrawal(id) => OnAccounts(s, Withdrawals.Reject(s.accounts, id))
  }

  /** A failed operation is rolled back. */
  function Step(s: State, now: int, op: Op): State {
    match Apply(s, now, op) case Ok(t) => t case Err(_) => s
  }

  /** Credits an operation creates or destroys inside the ledger; deposits and withdrawals are Backing. */
  function Flow(s: State, now: int, op: Op): int {
    if Apply(s, now, op).Err? then 0
    else match op
      case RecordBonus(_, amount) => amount
      case AdminMintTo(_, amount) => amount
      case AccountBonus(_, amount) => amount
      case ReconcileAvailability(recipients, _) => Availability.Dripped(s, recipients)
      case ProviderPayout(_, amount) => -amount
      case SettleFleet(consumer, provider, _, cost) => -Settlement.Unclaimed(s, consumer, provider, cost)
      case _ => 0
  }

  /**
   Grants and drips are the only operations that take an amount of either sign as it comes; this one leaves nobody in debt.
   No other operation needs any such care.
   */
  ghost predicate Covered(s: State, op: Op) {
    match op
    case RecordBonus(d, bonus) => d in s.books.balances ==> s.books.balances[d] + bonus >= 0
    case AccountBonus(a, bonus) => a in s.accounts.wallets ==> s.accounts.wallets[a].balance + bonus >= 0
    case ReconcileAvailability(recipients, listed) => Availability.Affords(s, recipients, listed)
    case _ => true
  }

  /** Amounts that are not negative are always covered. */
  lemma {:induction false} PositiveIsCovered(s: State, now: int, op: Op)
    requires Inv(s, now)
    requires match op
      case RecordBonus(_, bonus) => bonus >= 0
      case AccountBonus(_, bonus) => bonus >= 0
      case ReconcileAvailability(recipients, _) => Availability.NoNegatives(recipients)
      case _ => true
    ensures Covered(s, op)
  {
    hide Availability.Affords, Availability.Reconcile, PoolsAgree, KeysOk, DollarsAgree, WithdrawalsOk, RowSum;
    if op.ReconcileAvailability? {
      Availability.ReconcileKeeps(s, now, op.recipients, op.listed);
    }
  }

  predicate AccountsOnly(op: Op) {
    op.OnchainDeposit? || op.TreasuryDeposit? || op.SubmitWithdrawal? || op.CompleteWithdrawal? || op.RejectWithdrawal?
  }

  /** The invariant kept, the credits accounted for, and no request moved backwards. */
  ghost predicate StepOk(s: State, t: State, now: int, flow: int) {
    && Inv(t, now)
    && Credits(t) == Credits(s) + flow + Withdrawals.Backing(t.accounts) - Withdrawals.Backing(s.accounts)
    && Withdrawals.RequestsProgress(s.accounts.withdrawals, t.accounts.withdrawals)
  }

  // ---- one step ----

  lemma {:induction false} AccountsStep(s: State, now: int, a: Accounts)
    requires Inv(s, now) && Withdrawals.Sound(s.accounts, a)
    ensures StepOk(s, s.(accounts := a), now, 0)
  {
    hide BooksOk, AccountsOk, EarningsOk, KeysOk, PoolsAgree, Total;
  }

  lemma {:induction false} AccountsOpKeeps(s: State, now: int, op: Op)
    requires Inv(s, now) && AccountsOnly(op) && Apply(s, now, op).Ok?
    ensures StepOk(s, Apply(s, now, op).value, now, 0)
  {
    hide Inv, StepOk, AccountsOk, Withdrawals.Sound, Withdrawals.DepositOnchain, Withdrawals.DepositTreasury, Withdrawals.Submit,
      Withdrawals.Complete, Withdrawals.Reject, Withdrawals.Takes, Withdrawals.Pays;
    InvAccounts(s, now);
    match op
    case OnchainDeposit(requester, address, signature, cents, source) =>
      Withdrawals.DepositOnchainIsSound(s.accounts, requester, address, signature, cents, source);
      AccountsStep(s, now, Apply(s, now, op).value.accounts);
    case TreasuryDeposit(requester, paid, usdc, source, treasury) =>
      Withdrawals.DepositTreasuryIsSound(s.accounts, requester, paid, usdc, source, treasury);
      AccountsStep(s, now, Apply(s, now, op).value.accounts);
    case SubmitWithdrawal(requester, request, destination, usdc, signature) =>
      Withdrawals.SubmitIsSound(s.accounts, requester, request, destination, usdc, signature);
      AccountsStep(s, now, Apply(s, now, op).value.accounts);
    case CompleteWithdrawal(id, paid) =>
      Withdrawals.CompleteIsSound(s.accounts, id, paid);
      AccountsStep(s, now, Apply(s, now, op).value.accounts);
    case RejectWithdrawal(id) =>
      Withdrawals.RejectIsSound(s.accounts, id);
      AccountsStep(s, now, Apply(s, now, op).value.accounts);
  }

  lemma {:induction false} InvAccounts(s: State, now: int)
    requires Inv(s, now)
    ensures AccountsOk(s.accounts)
  {}

  /** Operations that leave requests and deposits alone. */
  lemma {:induction false} OtherStep(s: State, t: State, now: int, flow: int)
    requires Inv(t, now) && Credits(t) == Credits(s) + flow
    requires t.accounts.withdrawals == s.accounts.withdrawals && t.accounts.deposits == s.accounts.deposits
    ensures StepOk(s, t, now, flow)
  {
    hide Inv, Credits;
  }

  lemma {:induction false} GrantOpKeeps(s: State, now: int, op: Op)
    requires Inv(s, now) && Apply(s, now, op).Ok? && (op.RecordBonus? || op.AdminMintTo? || op.AccountBonus?)
    ensures if Covered(s, op) then StepOk(s, Apply(s, now, op).value, now, Flow(s, now, op)) else !Inv(Apply(s, now, op).value, now)
  {
    hide Inv, Credits, StepOk;
    match op {
      case RecordBonus(d, bonus) => Wallets.GrantsKeep(s, now, d, "", bonus);
      case AdminMintTo(d, amount) => Wallets.GrantsKeep(s, now, d, "", amount);
      case AccountBonus(a, bonus) => Wallets.GrantsKeep(s, now, "", a, bonus);
    }
    if Covered(s, op) {
      OtherStep(s, Apply(s, now, op).value, now, Flow(s, now, op));
    }
  }

  lemma {:induction false} TransferOpKeeps(s: State, now: int, op: Op)
    requires Inv(s, now) && Apply(s, now, op).Ok? && (op.DeviceTransfer? || op.AccountTransfer?)
    ensures StepOk(s, Apply(s, now, op).value, now, 0)
  {
    hide Inv, Credits, StepOk;
    match op {
      case DeviceTransfer(sender, target, amount) => Wallets.TransferFromDeviceKeeps(s, now, sender, target, amount);
      case AccountTransfer(sender, target, amount) => Wallets.TransferFromAccountKeeps(s, now, sender, target, amount);
    }
    OtherStep(s, Apply(s, now, op).value, now, 0);
  }

  lemma {:induction false} WalletOpKeeps(s: State, now: int, op: Op)
    requires Inv(s, now) && Apply(s, now, op).Ok?
    requires op.UpsertDevice? || op.LinkDevice? || op.UnlinkDevice? || op.SweepDevice?
    ensures StepOk(s, Apply(s, now, op).value, now, Flow(s, now, op))
  {
    hide Inv, Credits, StepOk;
    match op {
      case UpsertDevice(d) => Wallets.UpsertKeeps(s, now, d);
      case LinkDevice(d, a) => Wallets.LinkKeeps(s, now, d, a);
      case UnlinkDevice(requester, d) => Wallets.UnlinkKeeps(s, now, requester, d);
      case SweepDevice(requester, d) => Wallets.SweepKeeps(s, now, requester, d);
    }
    OtherStep(s, Apply(s, now, op).value, now, Flow(s, now, op));
  }

  lemma {:induction false} SettlementOpKeeps(s: State, now: int, op: Op)
    requires Inv(s, now) && Apply(s, now, op).Ok?
    requires op.SettleFleet? || op.SettleProvider? || op.ProviderPayout? || op.ReconcileAvailability?
    ensures if Covered(s, op) then StepOk(s, Apply(s, now, op).value, now, Flow(s, now, op)) else !Inv(Apply(s, now, op).value, now)
  {
    hide Inv, Credits, StepOk, Availability.Affords, Settlement.SettleFleet, Settlement.SettleProvider, Availability.Reconcile, Availability.Dripped, Settlement.Unclaimed;
    match op {
      case SettleFleet(consumer, provider, online, cost) => Settlement.SettleFleetKeeps(s, now, consumer, provider, online, cost);
      case SettleProvider(consumer, vendor, cost) => Settlement.SettleProviderKeeps(s, now, consumer, vendor, cost);
      case ProviderPayout(vendor, amount) => Settlement.PayoutKeeps(s, now, vendor, amount);
      case ReconcileAvailability(recipients, listed) => Availability.ReconcileKeeps(s, now, recipients, listed);
    }
    if Covered(s, op) {
      OtherStep(s, Apply(s, now, op).value, now, Flow(s, now, op));
    }
  }

  lemma {:induction false} ShareOpKeeps(s: State, now: int, op: Op)
    requires Inv(s, now) && Apply(s, now, op).Ok?
    requires op.MintKey? || op.FundKey? || op.RevokeKey? || op.RefundExpiredKeys? || op.MigrateKeys?
    ensures StepOk(s, Apply(s, now, op).value, now, 0)
  {
    hide Inv, Credits, StepOk, SharePools.Migrate, SharePools.RefundExpired;
    match op {
      case MintKey(issuer, key, contribution, expiresIn, budget) =>
        SharePools.MintKeeps(s, now, issuer, key, contribution, expiresIn, budget);
      case FundKey(sender, key, contribution, amount) => SharePools.FundKeeps(s, now, sender, key, contribution, amount);
      case RevokeKey(issuer, key) => SharePools.RevokeKeeps(s, now, issuer, key);
      case RefundExpiredKeys(keys) => SharePools.RefundExpiredKeeps(s, now, keys);
      case MigrateKeys(legacy) => SharePools.MigrateKeeps(s, now, legacy);
    }
    OtherStep(s, Apply(s, now, op).value, now, 0);
  }

  /** Every operation keeps the ledger sound and accounts for every credit, exactly if it is covered. */
  lemma {:induction false} StepKeeps(s: State, now: int, op: Op)
    requires Inv(s, now)
    ensures Covered(s, op) ==> StepOk(s, Step(s, now, op), now, Flow(s, now, op))
    ensures Inv(Step(s, now, op), now) <==> Covered(s, op)
  {
    hide Inv, StepOk, Apply, Availability.Affords;
    if Covered(s, op) {
      assert StepOk(s, Step(s, now, op), now, Flow(s, now, op)) by { CoveredStep(s, now, op); }
      StepOkInv(s, Step(s, now, op), now, Flow(s, now, op));
    } else {
      UncoveredApplies(s, now, op);
      if op.ReconcileAvailability? {
        SettlementOpKeeps(s, now, op);
      } else {
        GrantOpKeeps(s, now, op);
      }
    }
  }

  lemma {:induction false} StepOkInv(s: State, t: State, now: int, flow: int)
    requires StepOk(s, t, now, flow)
    ensures Inv(t, now)
  {}

  lemma {:induction false} UncoveredApplies(s: State, now: int, op: Op)
    requires !Covered(s, op)
    ensures Apply(s, now, op).Ok?
  {}

  lemma {:induction false} CoveredStep(s: State, now: int, op: Op)
    requires Inv(s, now) && Covered(s, op)
    ensures StepOk(s, Step(s, now, op), now, Flow(s, now, op))
  {
    hide Inv, StepOk, Apply, Availability.Affords;
    if Apply(s, now, op).Err? {
      OtherStep(s, s, now, 0);
    } else if AccountsOnly(op) {
      AccountsOpKeeps(s, now, op);
    } else if op.MintKey? || op.FundKey? || op.RevokeKey? || op.RefundExpiredKeys? || op.MigrateKeys? {
      ShareOpKeeps(s, now, op);
    } else if op.SettleFleet? || op.SettleProvider? || op.ProviderPayout? || op.ReconcileAvailability? {
      SettlementOpKeeps(s, now, op);
    } else if op.RecordBonus? || op.AdminMintTo? || op.AccountBonus? {
      GrantOpKeeps(s, now, op);
    } else if op.DeviceTransfer? || op.AccountTransfer? {
      TransferOpKeeps(s, now, op);
    } else {
      WalletOpKeeps(s, now, op);
    }
  }

  // ---- runs ----

  /** Operations with the times they run at. */
  type Trace = seq<(int, Op)>

  /** The clock does not go back. */
  predicate Forward(start: int, trace: Trace) {
    trace == [] ||
    var n := |trace| - 1;
    Forward(start, trace[..n]) && End(start, trace[..n]) <= trace[n].0
  }

  /** Every operation is covered in the state it meets. */
  ghost predicate Covers(s: State, trace: Trace) {
    trace == [] ||
    var n := |trace| - 1;
    Covers(s, trace[..n]) && Covered(Run(s, trace[..n]), trace[n].1)
  }

  function End(start: int, trace: Trace): int {
    if trace == [] then start else trace[|trace| - 1].0
  }

  function Run(s: State, trace: Trace): State {
    if trace == [] then s
    else var n := |trace| - 1; Step(Run(s, trace[..n]), trace[n].0, trace[n].1)
  }

  /** Everything minted and dripped, less payouts and unclaimed shares, over a run. */
  function RunFlow(s: State, trace: Trace): int {
    if trace == [] then 0
    else var n := |trace| - 1; RunFlow(s, trace[..n]) + Flow(Run(s, trace[..n]), trace[n].0, trace[n].1)
  }

  lemma {:induction false} InvLater(s: State, now: int, later: int)
    requires Inv(s, now) && now <= later
    ensures Inv(s, later)
  {
    hide BooksOk, AccountsOk, EarningsOk, PoolsAgree;
    assert forall k :: k in s.keys ==> KeyOk(s.keys[k], now);
  }

  lemma {:induction false} ProgressComposes(a: map<string, Withdrawal>, b: map<string, Withdrawal>, c: map<string, Withdrawal>)
    requires Withdrawals.RequestsProgress(a, b) && Withdrawals.RequestsProgress(b, c)
    ensures Withdrawals.RequestsProgress(a, c)
  {}

  /**
   In every run with a clock that does not go back: the invariant holds throughout, credits change only by
   minting, drip, payouts, unclaimed direct shares, deposits and withdrawals, and requests only move forward.
   */
  lemma {:induction false} RunsConserve(s: State, start: int, trace: Trace)
    requires Inv(s, start) && Forward(start, trace) && Covers(s, trace)
    ensures StepOk(s, Run(s, trace), End(start, trace), RunFlow(s, trace))
  {
    hide Inv, Credits, Flow, Step, Covered;
    if trace == [] {
      OtherStep(s, s, start, 0);
    } else {
      var n := |trace| - 1;
      var init, now, op := trace[..n], trace[n].0, trace[n].1;
      RunsConserve(s, start, init);
      InvLater(Run(s, init), End(start, init), now);
      StepKeeps(Run(s, init), now, op);
      ProgressComposes(s.accounts.withdrawals, Run(s, init).accounts.withdrawals, Run(s, trace).accounts.withdrawals);
    }
  }

  /** Sound after each of its steps. */
  ghost predicate SoundThroughout(s: State, start: int, trace: Trace) {
    Inv(Run(s, trace), End(start, trace)) && (trace != [] ==> SoundThroughout(s, start, trace[..|trace| - 1]))
  }

  /** A run is sound throughout exactly if every operation in it is covered. */
  lemma {:induction false} SoundExactlyIfCovered(s: State, start: int, trace: Trace)
    requires Inv(s, start) && Forward(start, trace)
    ensures SoundThroughout(s, start, trace) <==> Covers(s, trace)
  {
    hide Inv, Step, Covered;
    if trace != [] {
      var n := |trace| - 1;
      var init, now, op := trace[..n], trace[n].0, trace[n].1;
      SoundExactlyIfCovered(s, start, init);
      if SoundThroughout(s, start, init) {
        InvLater(Run(s, init), End(start, init), now);
        StepKeeps(Run(s, init), now, op);
      }
    }
  }

  // ---- reachable states ----

  /** A new database: nobody holds anything. Providers and API keys are registered elsewhere. */
  function Genesis(mint: nat, providers: set<Provider>, apiKeys: map<string, ApiKey>): State {
    State({}, Books(map[], []), map[], mint, map[], Accounts(map[], map[], apiKeys, map[], map[]), providers, map[])
  }

  lemma {:induction false} GenesisIsSound(mint: nat, providers: set<Provider>, apiKeys: map<string, ApiKey>, now: int)
    ensures var s := Genesis(mint, providers, apiKeys);
      Inv(s, now) && Credits(s) == 0 && Withdrawals.Backing(s.accounts) == 0
  {
    var s := Genesis(mint, providers, apiKeys);
    assert WalletBalances(s.accounts.wallets) == map[] && Pools(s.keys) == map[];
    assert Withdrawals.AllDebits(s.accounts.withdrawals) == map[] && Withdrawals.AllDeposits(s.accounts.deposits) == map[];
  }

  /** Every reachable state, clause by clause. */
  lemma {:induction false} ReachableStates(mint: nat, providers: set<Provider>, apiKeys: map<string, ApiKey>, start: int, trace: Trace)
    requires Forward(start, trace) && Covers(Genesis(mint, providers, apiKeys), trace)
    ensures var s := Genesis(mint, providers, apiKeys);
      var t := Run(s, trace);
      var wallets, ws := t.accounts.wallets, t.accounts.withdrawals;
      // credits in existence are exactly what was minted, dripped and deposited, less what left
      && Credits(t) == RunFlow(s, trace) + Withdrawals.Backing(t.accounts)
      // no balance is negative, and a device's is what its rows and its open session say
      && (forall d :: Get(t.books.balances, d) == RowSum(t.books.rows, d) + Accrued(t.sessions, d) >= 0)
      && (forall a :: a in wallets ==> wallets[a].balance >= 0)
      && (forall p :: Get(t.earnings, p) >= 0)
      // an open pool holds budget minus consumed, a settled one nothing
      && (forall k :: k in t.keys && t.keys[k].funded ==>
            Remaining(t.keys[k].contributions) == if Settled(t.keys[k]) then 0 else t.keys[k].budget - t.keys[k].consumed)
      // each account is debited for its pending and submitted requests and no others
      && (forall a :: a in wallets ==>
            && wallets[a].deposited - wallets[a].usdc == Total(DebitedCents(ws, a))
            && wallets[a].withdrawn == Total(SubmittedCents(ws, a)))
      // no signature serves two requests
      && (forall r, q :: r in ws && q in ws && ws[r].status.Submitted? && ws[q].status == ws[r].status ==> r == q)
  {
    hide Credits, RunFlow, Run, RowSum, Remaining, Total, Withdrawals.Backing, PoolsAgree;
    GenesisIsSound(mint, providers, apiKeys, start);
    RunsConserve(Genesis(mint, providers, apiKeys), start, trace);
    var t := Run(Genesis(mint, providers, apiKeys), trace);
    forall k | k in t.keys ensures KeyOk(t.keys[k], End(start, trace)) {}
  }
}
