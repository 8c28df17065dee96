/** Dollar deposits and withdrawals: holds, treasury payouts, self-custody submissions and refunds. */
module Withdrawals {
  import opened Prelude
  import opened Credit

  const MAX_INT64 := 0x7fff_ffff_ffff_ffff

  type AccountsOutcome = Result<Accounts, Error>

  /** Checked conversion; amounts here are never negative. */
  predicate Converts(cents: int) { cents * CREDITS_PER_CENT <= MAX_INT64 }

  // ---- deposits ----

  function ResolveAddress(w: Wallet, requested: Option<string>): Result<string, Error> {
    match (w.address, requested)
    case (Some(e), Some(r)) => if e != r then Err(AddressMismatch) else Ok(e)
    case (Some(e), None) => Ok(e)
    case (None, Some(r)) => Ok(r)
    case (None, None) => Err(AddressRequired)
  }

  /** A deposit recorded under its signature and credited at the published rate. */
  function Credited(a: Accounts, x: Account, signature: string, d: Deposit): Accounts
    requires x in a.wallets
  {
    var w := a.wallets[x];
    a.(deposits := a.deposits[signature := d],
       wallets := a.wallets[x := w.(balance := w.balance + d.cents * CREDITS_PER_CENT,
                                    usdc := w.usdc + d.cents, deposited := w.deposited + d.cents)])
  }

  function DepositOnchain(a: Accounts, requester: Device, address: Option<string>, signature: Option<string>,
                          cents: Option<int>, source: Option<string>): AccountsOutcome
  {
    if requester !in a.links then Err(NotLinked)
    else
      var x := a.links[requester];
      if x !in a.wallets then Err(ConstraintFailed)
      else match ResolveAddress(a.wallets[x], address)
        case Err(e) => Err(e)
        case Ok(effective) =>
          var b := a.(wallets := a.wallets[x := a.wallets[x].(address := Some(effective), enabled := true)]);
          if signature.None? then Ok(b)
          else if cents.None? then Err(AmountRequired)
          else if cents.value <= 0 then Err(InvalidAmount)
          else if !Converts(cents.value) then Err(Overflow)
          else
            var d := Deposit(x, effective, cents.value, source);
            if signature.value in a.deposits
            then if a.deposits[signature.value] == d then Ok(b) else Err(DepositConflict)
            else Ok(Credited(b, x, signature.value, d))
  }

  function DepositTreasury(a: Accounts, requester: Device, signature: string, cents: int, source: Option<string>,
                           treasury: string): AccountsOutcome
  {
    if cents <= 0 || !Converts(cents) then Err(InvalidAmount)
    else if requester !in a.links then Err(NotLinked)
    else
      var x := a.links[requester];
      if x !in a.wallets then Err(ConstraintFailed)
      else
        var d := Deposit(x, treasury, cents, source);
        if signature in a.deposits
        then if a.deposits[signature].(source := source) == d then Ok(a) else Err(DepositConflict)
        else Ok(Credited(a, x, signature, d))
  }

  // ---- withdrawals ----

  predicate UsedElsewhere(ws: map<string, Withdrawal>, signature: string, r: string) {
    exists q :: q in ws && q != r && ws[q].status == Submitted(signature)
  }

  /** The wallet and the request both written. */
  function Write(a: Accounts, x: Account, w: Wallet, r: string, wd: Withdrawal): Accounts {
    a.(wallets := a.wallets[x := w], withdrawals := a.withdrawals[r := wd])
  }

  /** The funds a request takes when it is first recorded. */
  function Hold(w: Wallet, wd: Withdrawal): Wallet {
    w.(balance := w.balance - wd.credits, usdc := w.usdc - wd.cents)
  }

  function Redeemable(w: Wallet): int { Max(w.deposited - w.withdrawn, 0) }

  function Submit(a: Accounts, requester: Device, request: Option<string>, destination: Option<string>, cents: int,
                  signature: Option<string>): AccountsOutcome
  {
    if request.None? || destination.None? then Err(MissingField)
    else if cents <= 0 then Err(InvalidAmount)
    else if requester !in a.links then Err(NotLinked)
    else if a.links[requester] !in a.wallets then Err(ConstraintFailed)
    else
      var x, r := a.links[requester], request.value;
      var w := a.wallets[x];
      if !w.enabled || w.address.None? then Err(NotEnabled)
      else if !Converts(cents) then Err(Overflow)
      else if signature.Some? && UsedElsewhere(a.withdrawals, signature.value, r) then Err(SignatureConflict)
      else
        var asked := Withdrawal(x, destination.value, cents, cents * CREDITS_PER_CENT, Pending);
        if r in a.withdrawals then Resubmit(a, x, r, asked, signature)
        else if signature.Some? && !Converts(Redeemable(w)) then Err(Overflow)
        else if w.balance < asked.credits then Err(InsufficientBalance)
        else match signature
          case None => Ok(Write(a, x, Hold(w, asked), r, asked))
          case Some(g) =>
            Ok(Write(a, x, Hold(w, asked).(withdrawn := w.withdrawn + cents), r, asked.(status := Submitted(g))))
  }

  /** A request id seen before: idempotent, or the completion of a held request. */
  function Resubmit(a: Accounts, x: Account, r: string, asked: Withdrawal, signature: Option<string>): AccountsOutcome
    requires x in a.wallets && r in a.withdrawals
  {
    var was, w := a.withdrawals[r], a.wallets[x];
    if was.(status := Pending) != asked then Err(WithdrawalConflict)
    else if !was.status.Pending? then
      if signature.Some? && was.status != Submitted(signature.value) then Err(WithdrawalConflict) else Ok(a)
    else match signature
      case None => Ok(a)
      case Some(g) =>
        if !Converts(Redeemable(w)) then Err(Overflow)
        else Ok(Write(a, x, w.(withdrawn := w.withdrawn + was.cents), r, was.(status := Submitted(g))))
  }

  function Complete(a: Accounts, r: string, signature: string): AccountsOutcome {
    if r !in a.withdrawals then Err(NotPending)
    else
      var was := a.withdrawals[r];
      if !was.status.Pending? then if was.status == Submitted(signature) then Ok(a) else Err(WithdrawalConflict)
      else if UsedElsewhere(a.withdrawals, signature, r) then Err(SignatureConflict)
      else if was.account !in a.wallets then Err(ConstraintFailed)
      else
        var w := a.wallets[was.account];
        Ok(Write(a, was.account, w.(withdrawn := w.withdrawn + was.cents), r, was.(status := Submitted(signature))))
  }

  function Reject(a: Accounts, r: string): AccountsOutcome {
    if r !in a.withdrawals then Err(NotPending)
    else
      var was := a.withdrawals[r];
      if !was.status.Pending? then Err(WithdrawalConflict)
      else if was.account !in a.wallets then Err(ConstraintFailed)
      else
        var w := a.wallets[was.account];
        Ok(Write(a, was.account, w.(balance := w.balance + was.credits, usdc := w.usdc + was.cents), r, was.(status := Rejected)))
  }

  // ---- what every one of these keeps ----

  function AllDebits(ws: map<string, Withdrawal>): map<string, int> {
    map r | r in ws :: CentsIf(Debited(ws[r]), ws[r].cents)
  }

  function AllDeposits(ds: map<string, Deposit>): map<string, int> {
    map g | g in ds :: ds[g].cents
  }

  /** Credits backed from outside: deposits less the withdrawals that are debited. */
  ghost function Backing(a: Accounts): int {
    CREDITS_PER_CENT * (Total(AllDeposits(a.deposits)) - Total(AllDebits(a.withdrawals)))
  }

  /** Requests only ever move from pending to a final status, which nothing changes. */
  ghost predicate RequestsProgress(ws: map<string, Withdrawal>, ws': map<string, Withdrawal>) {
    forall r :: r in ws ==>
      r in ws' && (ws'[r] == ws[r] || (ws[r].status.Pending? && ws'[r] == ws[r].(status := ws'[r].status)))
  }

  /** Dollars and credits of an account move together, at the fixed rate, or not at all. */
  ghost predicate InStep(a: Accounts, b: Accounts) {
    && a.wallets.Keys == b.wallets.Keys
    && (forall x :: x in a.wallets ==>
          b.wallets[x].balance - a.wallets[x].balance == CREDITS_PER_CENT * (b.wallets[x].usdc - a.wallets[x].usdc))
  }

  ghost predicate Sound(a: Accounts, b: Accounts) {
    && AccountsOk(b) && InStep(a, b) && RequestsProgress(a.withdrawals, b.withdrawals) && b.links == a.links
    && Total(WalletBalances(b.wallets)) - Total(WalletBalances(a.wallets)) == Backing(b) - Backing(a)
  }

  // ---- sums over requests ----

  function DebitOf(ws: map<string, Withdrawal>, r: string): int {
    if r in ws then CentsIf(Debited(ws[r]), ws[r].cents) else 0
  }

  function PayoutOf(ws: map<string, Withdrawal>, r: string): int {
    if r in ws then CentsIf(ws[r].status.Submitted?, ws[r].cents) else 0
  }

  lemma {:induction false} DebitSums(ws: map<string, Withdrawal>, r: string, wd: Withdrawal, y: Account)
    requires r in ws ==> ws[r].account == wd.account
    ensures Total(DebitedCents(ws[r := wd], y))
      == Total(DebitedCents(ws, y)) + (if y == wd.account then DebitOf(ws[r := wd], r) - DebitOf(ws, r) else 0)
  {
    hide Total;
    var debit := CentsIf(y == wd.account && Debited(wd), wd.cents);
    assert DebitedCents(ws[r := wd], y) == DebitedCents(ws, y)[r := debit];
    TotalUpdate(DebitedCents(ws, y), r, debit);
  }

  lemma {:induction false} PayoutSums(ws: map<string, Withdrawal>, r: string, wd: Withdrawal, y: Account)
    requires r in ws ==> ws[r].account == wd.account
    ensures Total(SubmittedCents(ws[r := wd], y))
      == Total(SubmittedCents(ws, y)) + (if y == wd.account then PayoutOf(ws[r := wd], r) - PayoutOf(ws, r) else 0)
  {
    hide Total;
    var payout := CentsIf(y == wd.account && wd.status.Submitted?, wd.cents);
    assert SubmittedCents(ws[r := wd], y) == SubmittedCents(ws, y)[r := payout];
    TotalUpdate(SubmittedCents(ws, y), r, payout);
  }

  /** A request and its wallet changed together keep every account's dollars in agreement. */
  lemma {:induction false} WriteDollars(a: Accounts, x: Account, w: Wallet, r: string, wd: Withdrawal)
    requires AccountsOk(a) && x in a.wallets && wd.account == x
    requires r in a.withdrawals ==> a.withdrawals[r].account == x
    requires var ws, ws' := a.withdrawals, a.withdrawals[r := wd];
      && w.deposited == a.wallets[x].deposited
      && a.wallets[x].usdc - w.usdc == DebitOf(ws', r) - DebitOf(ws, r)
      && w.withdrawn - a.wallets[x].withdrawn == PayoutOf(ws', r) - PayoutOf(ws, r)
    ensures var b := Write(a, x, w, r, wd); DollarsAgree(b.wallets, b.withdrawals, b.deposits)
  {
    hide Total;
    var b := Write(a, x, w, r, wd);
    forall y | y in b.wallets
      ensures b.wallets[y].deposited == Total(DepositedCents(b.deposits, y))
      ensures b.wallets[y].deposited - b.wallets[y].usdc == Total(DebitedCents(b.withdrawals, y))
      ensures b.wallets[y].withdrawn == Total(SubmittedCents(b.withdrawals, y))
    {
      DebitSums(a.withdrawals, r, wd, y);
      PayoutSums(a.withdrawals, r, wd, y);
    }
  }

  lemma {:induction false} WriteBacking(a: Accounts, x: Account, w: Wallet, r: string, wd: Withdrawal)
    ensures Backing(Write(a, x, w, r, wd))
         == Backing(a) - CREDITS_PER_CENT * (DebitOf(a.withdrawals[r := wd], r) - DebitOf(a.withdrawals, r))
  {
    hide Total;
    assert AllDebits(a.withdrawals[r := wd]) == AllDebits(a.withdrawals)[r := CentsIf(Debited(wd), wd.cents)];
    TotalUpdate(AllDebits(a.withdrawals), r, CentsIf(Debited(wd), wd.cents));
  }

  /** A request written over a pending one or under a new id, with the wallet changed to match. */
  ghost predicate Matched(a: Accounts, x: Account, w: Wallet, r: string, wd: Withdrawal) {
    var ws, ws' := a.withdrawals, a.withdrawals[r := wd];
    && x in a.wallets && w.balance >= 0
    && wd.account == x && wd.cents > 0 && wd.credits == wd.cents * CREDITS_PER_CENT
    && (r in ws ==> ws[r].status.Pending? && wd == ws[r].(status := wd.status))
    && (wd.status.Submitted? ==> !UsedElsewhere(ws, wd.status.signature, r))
    && w.deposited == a.wallets[x].deposited
    && a.wallets[x].usdc - w.usdc == DebitOf(ws', r) - DebitOf(ws, r)
    && a.wallets[x].balance - w.balance == CREDITS_PER_CENT * (DebitOf(ws', r) - DebitOf(ws, r))
    && w.withdrawn - a.wallets[x].withdrawn == PayoutOf(ws', r) - PayoutOf(ws, r)
  }

  lemma {:induction false} WriteKeepsAccounts(a: Accounts, x: Account, w: Wallet, r: string, wd: Withdrawal)
    requires AccountsOk(a) && Matched(a, x, w, r, wd)
    ensures AccountsOk(Write(a, x, w, r, wd))
  {
    hide Total, DollarsAgree;
    WriteDollars(a, x, w, r, wd);
    SignaturesStayUnique(a.withdrawals, r, wd);
    assert Write(a, x, w, r, wd).wallets.Keys == a.wallets.Keys;
  }

  lemma {:induction false} WriteMovesBacking(a: Accounts, x: Account, w: Wallet, r: string, wd: Withdrawal)
    requires Matched(a, x, w, r, wd)
    ensures var b := Write(a, x, w, r, wd);
      Total(WalletBalances(b.wallets)) - Total(WalletBalances(a.wallets)) == Backing(b) - Backing(a)
  {
    hide Total, DebitOf, PayoutOf, Backing;
    var b := Write(a, x, w, r, wd);
    WriteBacking(a, x, w, r, wd);
    assert WalletBalances(b.wallets) == WalletBalances(a.wallets)[x := w.balance];
    TotalUpdate(WalletBalances(a.wallets), x, w.balance);
  }

  lemma {:induction false} WriteIsSound(a: Accounts, x: Account, w: Wallet, r: string, wd: Withdrawal)
    requires AccountsOk(a) && Matched(a, x, w, r, wd)
    ensures Sound(a, Write(a, x, w, r, wd))
  {
    hide Total, AccountsOk, DebitOf, PayoutOf, Backing;
    WriteKeepsAccounts(a, x, w, r, wd);
    WriteMovesBacking(a, x, w, r, wd);
    assert Write(a, x, w, r, wd).wallets.Keys == a.wallets.Keys;
  }

  lemma {:induction false} SignaturesStayUnique(ws: map<string, Withdrawal>, r: string, wd: Withdrawal)
    requires forall p, q :: p in ws && q in ws && ws[p].status.Submitted? && ws[q].status == ws[p].status ==> p == q
    requires wd.status.Submitted? ==> !UsedElsewhere(ws, wd.status.signature, r)
    ensures var ws' := ws[r := wd];
      forall p, q :: p in ws' && q in ws' && ws'[p].status.Submitted? && ws'[q].status == ws'[p].status ==> p == q
  {}

  lemma {:induction false} NoChangeIsSound(a: Accounts)
    requires AccountsOk(a)
    ensures Sound(a, a)
  {
    hide AccountsOk;
  }

  /** A request changed to submitted with a signature, and its account's withdrawn total raised by it, and nothing else. */
  ghost predicate Pays(a: Accounts, b: Accounts, r: string, signature: string) {
    && r in a.withdrawals && a.withdrawals[r].account in a.wallets
    && var was := a.withdrawals[r];
       var w := a.wallets[was.account];
       b == a.(withdrawals := a.withdrawals[r := was.(status := Submitted(signature))],
               wallets := a.wallets[was.account := w.(withdrawn := w.withdrawn + was.cents)])
  }

  /** A new request recorded as asked, pending or submitted, its funds taken once. */
  ghost predicate Takes(a: Accounts, b: Accounts, x: Account, r: string, asked: Withdrawal, signature: Option<string>) {
    && x in a.wallets && r !in a.withdrawals
    && var w, status := a.wallets[x], if signature.Some? then Submitted(signature.value) else Pending;
       b == a.(withdrawals := a.withdrawals[r := asked.(status := status)],
               wallets := a.wallets[x := w.(balance := w.balance - asked.credits, usdc := w.usdc - asked.cents,
                                            withdrawn := w.withdrawn + if signature.Some? then asked.cents else 0)])
  }

  /** A submission takes the funds of a new request once, completes a held one that is signed, and otherwise changes nothing. */
  lemma {:induction false} SubmitIsSound(a: Accounts, requester: Device, request: Option<string>, destination: Option<string>,
                                         cents: int, signature: Option<string>)
    requires AccountsOk(a) && Submit(a, requester, request, destination, cents, signature).Ok?
    ensures var b, x, r := Submit(a, requester, request, destination, cents, signature).value, a.links[requester], request.value;
      var asked := Withdrawal(x, destination.value, cents, cents * CREDITS_PER_CENT, Pending);
      && Sound(a, b)
      && if r !in a.withdrawals then Takes(a, b, x, r, asked, signature)
         else if a.withdrawals[r].status.Pending? && signature.Some? then Pays(a, b, r, signature.value)
         else b == a
  {
    hide AccountsOk, Sound, UsedElsewhere;
    WalletFacts(a);
    NoChangeIsSound(a);
    var x, r := a.links[requester], request.value;
    var w, asked := a.wallets[x], Withdrawal(x, destination.value, cents, cents * CREDITS_PER_CENT, Pending);
    if r in a.withdrawals {
      ResubmitIsSound(a, x, r, asked, signature);
    } else {
      match signature
      case None => WriteIsSound(a, x, Hold(w, asked), r, asked);
      case Some(g) => WriteIsSound(a, x, Hold(w, asked).(withdrawn := w.withdrawn + cents), r, asked.(status := Submitted(g)));
    }
  }

  /** The request as it would be recorded: 10,000 credits a cent. */
  function Asked(x: Account, destination: string, cents: int): Withdrawal {
    Withdrawal(x, destination, cents, cents * 10_000, Pending)
  }

  /** A signature not spent on another request. */
  ghost predicate Unused(ws: map<string, Withdrawal>, signature: Option<string>, r: string) {
    forall q :: q in ws && q != r && ws[q].status.Submitted? ==> signature != Some(ws[q].status.signature)
  }

  /**
   When a submission is accepted: a complete request of a positive amount in range by an enabled account, whose signature is not
   used elsewhere, and which is either new and covered or the same as the one on record with a signature that fits its status.
   */
  ghost predicate SubmitAccepted(a: Accounts, requester: Device, request: Option<string>, destination: Option<string>, cents: int,
                                 signature: Option<string>)
  {
    && request.Some? && destination.Some? && 0 < cents && cents * 10_000 <= 0x7fff_ffff_ffff_ffff
    && requester in a.links && a.links[requester] in a.wallets
    && var x, r := a.links[requester], request.value;
       var w, inRange := a.wallets[x], (a.wallets[x].deposited - a.wallets[x].withdrawn) * 10_000 <= 0x7fff_ffff_ffff_ffff;
    && w.enabled && w.address.Some? && Unused(a.withdrawals, signature, r)
    && if r !in a.withdrawals then cents * 10_000 <= w.balance && (signature.Some? ==> inRange)
       else
         var was := a.withdrawals[r];
         && was.(status := Pending) == Asked(x, destination.value, cents)
         && (signature.Some? ==> if was.status.Pending? then inRange else was.status == Submitted(signature.value))
  }

  lemma {:induction false} SubmitRefusals(a: Accounts, requester: Device, request: Option<string>, destination: Option<string>,
                                          cents: int, signature: Option<string>)
    ensures Submit(a, requester, request, destination, cents, signature).Ok?
       <==> SubmitAccepted(a, requester, request, destination, cents, signature)
  {}

  lemma {:induction false} CompletionRefusals(a: Accounts, r: string, signature: string)
    requires AccountsOk(a)
    ensures Complete(a, r, signature).Ok? <==>
      && r in a.withdrawals
      && (a.withdrawals[r].status == Submitted(signature)
          || (a.withdrawals[r].status.Pending? && Unused(a.withdrawals, Some(signature), r)))
    ensures Reject(a, r).Ok? <==> r in a.withdrawals && a.withdrawals[r].status.Pending?
  {
    hide AccountsOk;
    WalletFacts(a);
  }

  lemma {:induction false} WalletFacts(a: Accounts)
    requires AccountsOk(a)
    ensures forall x :: x in a.wallets ==> a.wallets[x].balance >= 0
    ensures forall r :: r in a.withdrawals ==>
      var wd := a.withdrawals[r];
      wd.account in a.wallets && wd.cents > 0 && wd.credits == wd.cents * CREDITS_PER_CENT
  {}

  lemma {:induction false} ResubmitIsSound(a: Accounts, x: Account, r: string, asked: Withdrawal, signature: Option<string>)
    requires AccountsOk(a) && x in a.wallets && r in a.withdrawals && asked.account == x
    requires signature.Some? ==> !UsedElsewhere(a.withdrawals, signature.value, r)
    requires Resubmit(a, x, r, asked, signature).Ok?
    ensures var b := Resubmit(a, x, r, asked, signature).value;
      && Sound(a, b)
      && if a.withdrawals[r].status.Pending? && signature.Some? then Pays(a, b, r, signature.value) else b == a
  {
    hide AccountsOk, Sound, UsedElsewhere;
    WalletFacts(a);
    NoChangeIsSound(a);
    var was, w := a.withdrawals[r], a.wallets[x];
    if was.status.Pending? && signature.Some? {
      WriteIsSound(a, x, w.(withdrawn := w.withdrawn + was.cents), r, was.(status := Submitted(signature.value)));
    }
  }

  lemma {:induction false} CompleteIsSound(a: Accounts, r: string, signature: string)
    requires AccountsOk(a) && Complete(a, r, signature).Ok?
    ensures var b := Complete(a, r, signature).value;
      && Sound(a, b) && r in b.withdrawals && b.withdrawals[r].status == Submitted(signature)
      && if a.withdrawals[r].status.Pending? then Pays(a, b, r, signature) else b == a
  {
    hide AccountsOk, Sound, UsedElsewhere;
    WalletFacts(a);
    NoChangeIsSound(a);
    var was := a.withdrawals[r];
    if was.status.Pending? {
      var w := a.wallets[was.account];
      WriteIsSound(a, was.account, w.(withdrawn := w.withdrawn + was.cents), r, was.(status := Submitted(signature)));
    }
  }

  /** A rejection gives back exactly what the request took. */
  lemma {:induction false} RejectIsSound(a: Accounts, r: string)
    requires AccountsOk(a) && Reject(a, r).Ok?
    ensures Sound(a, Reject(a, r).value)
    ensures r in a.withdrawals && a.withdrawals[r].account in a.wallets
    ensures var was, b := a.withdrawals[r], Reject(a, r).value;
      var w := a.wallets[was.account];
      b == a.(withdrawals := a.withdrawals[r := was.(status := Rejected)],
              wallets := a.wallets[was.account := w.(balance := w.balance + was.credits, usdc := w.usdc + was.cents)])
  {
    hide AccountsOk, Sound;
    WalletFacts(a);
    var was := a.withdrawals[r];
    var w := a.wallets[was.account];
    WriteIsSound(a, was.account, w.(balance := w.balance + was.credits, usdc := w.usdc + was.cents), r, was.(status := Rejected));
  }

  // ---- deposits keep them too ----

  lemma {:induction false} DepositSums(ds: map<string, Deposit>, g: string, d: Deposit, y: Account)
    requires g !in ds
    ensures Total(DepositedCents(ds[g := d], y)) == Total(DepositedCents(ds, y)) + CentsIf(y == d.account, d.cents)
    ensures Total(AllDeposits(ds[g := d])) == Total(AllDeposits(ds)) + d.cents
  {
    hide Total;
    assert DepositedCents(ds[g := d], y) == DepositedCents(ds, y)[g := CentsIf(y == d.account, d.cents)];
    TotalUpdate(DepositedCents(ds, y), g, CentsIf(y == d.account, d.cents));
    assert AllDeposits(ds[g := d]) == AllDeposits(ds)[g := d.cents];
    TotalUpdate(AllDeposits(ds), g, d.cents);
  }

  lemma {:induction false} CreditedDollars(a: Accounts, x: Account, g: string, d: Deposit)
    requires AccountsOk(a) && x in a.wallets && g !in a.deposits && d.account == x
    ensures var b := Credited(a, x, g, d); DollarsAgree(b.wallets, b.withdrawals, b.deposits)
  {
    hide Total, WithdrawalsOk, DepositedCents, DebitedCents, SubmittedCents, AllDeposits;
    var b := Credited(a, x, g, d);
    forall y | y in b.wallets
      ensures b.wallets[y].deposited == Total(DepositedCents(b.deposits, y))
      ensures b.wallets[y].deposited - b.wallets[y].usdc == Total(DebitedCents(b.withdrawals, y))
    {
      DepositSums(a.deposits, g, d, y);
    }
  }

  lemma {:induction false} CreditedIsSound(a: Accounts, x: Account, g: string, d: Deposit)
    requires AccountsOk(a) && x in a.wallets && g !in a.deposits && d.account == x && d.cents > 0
    ensures Sound(a, Credited(a, x, g, d))
  {
    hide Total, DollarsAgree;
    var b := Credited(a, x, g, d);
    CreditedDollars(a, x, g, d);
    DepositSums(a.deposits, g, d, x);
    assert b.wallets.Keys == a.wallets.Keys;
    assert WalletBalances(b.wallets) == WalletBalances(a.wallets)[x := b.wallets[x].balance];
    TotalUpdate(WalletBalances(a.wallets), x, b.wallets[x].balance);
  }

  lemma {:induction false} EnableIsSound(a: Accounts, x: Account, address: Option<string>)
    requires AccountsOk(a) && x in a.wallets
    ensures var b := a.(wallets := a.wallets[x := a.wallets[x].(address := address, enabled := true)]);
      Sound(a, b) && Total(WalletBalances(b.wallets)) == Total(WalletBalances(a.wallets))
  {
    hide Total, WithdrawalsOk, DepositedCents, DebitedCents, SubmittedCents, AllDeposits, AllDebits;
    var b := a.(wallets := a.wallets[x := a.wallets[x].(address := address, enabled := true)]);
    assert b.wallets.Keys == a.wallets.Keys && WalletBalances(b.wallets) == WalletBalances(a.wallets);
    assert DollarsAgree(b.wallets, b.withdrawals, b.deposits) by {
      assert forall y :: y in b.wallets ==> b.wallets[y] == a.wallets[y].(address := b.wallets[y].address, enabled := b.wallets[y].enabled);
    }
  }

  /** A deposit recorded under its signature, and its account richer by it: 10,000 credits a cent. */
  ghost predicate Puts(a: Accounts, b: Accounts, x: Account, signature: string, d: Deposit) {
    && x in a.wallets && signature !in a.deposits && d.account == x
    && b.deposits == a.deposits[signature := d]
    && SameButFor(a, b, x)
    && b.wallets[x].balance == a.wallets[x].balance + d.cents * 10_000
    && b.wallets[x].usdc == a.wallets[x].usdc + d.cents && b.wallets[x].deposited == a.wallets[x].deposited + d.cents
    && b.wallets[x].withdrawn == a.wallets[x].withdrawn
  }

  /** No deposit, and no amount in any wallet, changed. */
  ghost predicate PutsNothing(a: Accounts, b: Accounts, x: Account) {
    && x in a.wallets && b.deposits == a.deposits && SameButFor(a, b, x)
    && b.wallets[x].balance == a.wallets[x].balance && b.wallets[x].usdc == a.wallets[x].usdc
    && b.wallets[x].deposited == a.wallets[x].deposited && b.wallets[x].withdrawn == a.wallets[x].withdrawn
  }

  /** One wallet may differ, and nothing else but deposits. */
  ghost predicate SameButFor(a: Accounts, b: Accounts, x: Account) {
    x in b.wallets && b == a.(wallets := a.wallets[x := b.wallets[x]], deposits := b.deposits)
  }

  /** Where a deposit goes: the address on file, or the given one if none is on file yet. */
  ghost predicate Addressed(w: Wallet, address: Option<string>, effective: string) {
    if w.address.Some? then w.address == Some(effective) && (address.Some? ==> address == w.address) else address == Some(effective)
  }

  /** A new signature is credited, to the cent, under the address on file; a known or absent one changes no amount. */
  ghost predicate OnchainDone(a: Accounts, b: Accounts, x: Account, address: Option<string>, signature: Option<string>,
                              cents: Option<int>, source: Option<string>)
  {
    && x in a.wallets && x in b.wallets && b.wallets[x].enabled && b.wallets[x].address.Some?
    && Addressed(a.wallets[x], address, b.wallets[x].address.value)
    && if signature.Some? && signature.value !in a.deposits
       then cents.Some? && Puts(a, b, x, signature.value, Deposit(x, b.wallets[x].address.value, cents.value, source))
       else PutsNothing(a, b, x)
  }

  /** When a deposit is accepted: a linked account, one address, a positive amount in range, and no conflict with its signature. */
  ghost predicate OnchainAccepted(a: Accounts, requester: Device, address: Option<string>, signature: Option<string>,
                                  cents: Option<int>, source: Option<string>)
  {
    && requester in a.links && a.links[requester] in a.wallets
    && var x := a.links[requester];
       exists effective :: Addressed(a.wallets[x], address, effective)
         && (signature.Some? ==>
               && cents.Some? && 0 < cents.value && cents.value * 10_000 <= 0x7fff_ffff_ffff_ffff
               && (signature.value in a.deposits ==> a.deposits[signature.value] == Deposit(x, effective, cents.value, source)))
  }

  lemma {:induction false} OnchainDeposits(a: Accounts, requester: Device, address: Option<string>, signature: Option<string>,
                                           cents: Option<int>, source: Option<string>)
    ensures var r := DepositOnchain(a, requester, address, signature, cents, source);
      && (r.Ok? <==> OnchainAccepted(a, requester, address, signature, cents, source))
      && (r.Ok? ==> OnchainDone(a, r.value, a.links[requester], address, signature, cents, source))
  {
    if requester in a.links && a.links[requester] in a.wallets {
      var w := a.wallets[a.links[requester]];
      if ResolveAddress(w, address).Ok? {
        assert Addressed(w, address, ResolveAddress(w, address).value);
      }
    }
  }

  lemma {:induction false} TreasuryDeposits(a: Accounts, requester: Device, signature: string, cents: int, source: Option<string>, treasury: string)
    ensures var r := DepositTreasury(a, requester, signature, cents, source, treasury);
      && (r.Ok? <==>
            && 0 < cents && cents * 10_000 <= 0x7fff_ffff_ffff_ffff && requester in a.links && a.links[requester] in a.wallets
            && (signature in a.deposits ==>
                  a.deposits[signature] == Deposit(a.links[requester], treasury, cents, a.deposits[signature].source)))
      && (r.Ok? ==> if signature in a.deposits then r.value == a
                    else Puts(a, r.value, a.links[requester], signature, Deposit(a.links[requester], treasury, cents, source)))
  {}

  /** A deposit is credited exactly once per signature, however often it is reported. */
  lemma {:induction false} DepositOnchainIsSound(a: Accounts, requester: Device, address: Option<string>, signature: Option<string>,
                                                 cents: Option<int>, source: Option<string>)
    requires AccountsOk(a) && DepositOnchain(a, requester, address, signature, cents, source).Ok?
    ensures Sound(a, DepositOnchain(a, requester, address, signature, cents, source).value)
    ensures OnchainDone(a, DepositOnchain(a, requester, address, signature, cents, source).value, a.links[requester],
                        address, signature, cents, source)
  {
    hide AccountsOk, Total, OnchainDone, OnchainAccepted;
    OnchainDeposits(a, requester, address, signature, cents, source);
    var x := a.links[requester];
    var effective := ResolveAddress(a.wallets[x], address).value;
    EnableIsSound(a, x, Some(effective));
    var b := a.(wallets := a.wallets[x := a.wallets[x].(address := Some(effective), enabled := true)]);
    if signature.Some? && signature.value !in a.deposits {
      CreditedIsSound(b, x, signature.value, Deposit(x, effective, cents.value, source));
    }
  }

  lemma {:induction false} DepositTreasuryIsSound(a: Accounts, requester: Device, signature: string, cents: int,
                                                  source: Option<string>, treasury: string)
    requires AccountsOk(a) && DepositTreasury(a, requester, signature, cents, source, treasury).Ok?
    ensures var b, x := DepositTreasury(a, requester, signature, cents, source, treasury).value, a.links[requester];
      && Sound(a, b)
      && if signature in a.deposits then b == a else Puts(a, b, x, signature, Deposit(x, treasury, cents, source))
  {
    hide AccountsOk, Sound, Puts;
    TreasuryDeposits(a, requester, signature, cents, source, treasury);
    NoChangeIsSound(a);
    if signature !in a.deposits {
      CreditedIsSound(a, a.links[requester], signature, Deposit(a.links[requester], treasury, cents, source));
    }
  }
}
