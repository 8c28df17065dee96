/** The availability drip: credits accrue in open sessions and reach the ledger when a session ends. */
module Availability {
  import opened Prelude
  import opened Credit

  datatype Recipient = Recipient(device: Device, credits: int, model: Option<string>)

  /** The last entry for a device wins, as in a hash map built from the list. */
  function LastFor(rs: seq<Recipient>, d: Device): Option<Recipient> {
    if rs == [] then None
    else if rs[|rs| - 1].device == d then Some(rs[|rs| - 1])
    else LastFor(rs[..|rs| - 1], d)
  }

  predicate StillMatching(rs: seq<Recipient>, d: Device, session: Session) {
    match LastFor(rs, d) case None => false case Some(r) => r.model == session.model
  }

  /** Ends one session: its accrual becomes a ledger row, the session row goes. */
  function Finalize(s: State, d: Device): State
    requires d in s.sessions
  {
    s.(sessions := s.sessions - {d},
       books := if s.sessions[d].accrued > 0
                then s.books.(rows := s.books.rows + [Row(d, AvailabilitySession, s.sessions[d].accrued)])
                else s.books)
  }

  /** Ends every listed session that no recipient continues. */
  function FinalizeStale(s: State, rs: seq<Recipient>, order: seq<Device>): State
    decreases |order|
  {
    if order == [] then s
    else FinalizeStale(FinalizeIfStale(s, rs, order[0]), rs, order[1..])
  }

  function FinalizeIfStale(s: State, rs: seq<Recipient>, d: Device): State {
    if d in s.sessions && !StillMatching(rs, d, s.sessions[d]) then Finalize(s, d) else s
  }

  lemma {:induction false} FinalizeStaleSnoc(s: State, rs: seq<Recipient>, order: seq<Device>, d: Device)
    ensures FinalizeStale(s, rs, order + [d]) == FinalizeIfStale(FinalizeStale(s, rs, order), rs, d)
    decreases |order|
  {
    if order == [] {
      assert (order + [d])[1..] == [];
    } else {
      assert (order + [d])[1..] == order[1..] + [d];
      FinalizeStaleSnoc(FinalizeIfStale(s, rs, order[0]), rs, order[1..], d);
    }
  }

  function Needed(rs: seq<Recipient>): nat {
    if rs == [] then 0 else Max(rs[0].credits, 0) + Needed(rs[1..])
  }

  function Granted(rs: seq<Recipient>): int {
    if rs == [] then 0 else rs[0].credits + Granted(rs[1..])
  }

  function Accrue(s: State, r: Recipient): State {
    s.(devices := s.devices + {r.device},
       books := s.books.(balances := s.books.balances[r.device := Get(s.books.balances, r.device) + r.credits]),
       sessions := s.sessions[r.device := Session(r.model, Accrued(s.sessions, r.device) + r.credits)])
  }

  function AccrueAll(s: State, rs: seq<Recipient>): State
    decreases |rs|
  {
    if rs == [] then s else AccrueAll(Accrue(s, rs[0]), rs[1..])
  }

  predicate Skips(s: State, rs: seq<Recipient>) {
    Needed(rs) > 0 && s.mint < Needed(rs)
  }

  function Reconcile(s: State, rs: seq<Recipient>, order: seq<Device>): State {
    var t := FinalizeStale(s, rs, order);
    if Skips(t, rs) then t else AccrueAll(t.(mint := t.mint - Needed(rs)), rs)
  }

  predicate NoNegatives(rs: seq<Recipient>) {
    forall i :: 0 <= i < |rs| ==> rs[i].credits >= 0
  }

  // ---- lemmas ----

  /** The last listing of a device names this model. */
  ghost predicate LastListed(rs: seq<Recipient>, d: Device, model: Option<string>) {
    exists i :: 0 <= i < |rs| && rs[i].device == d && rs[i].model == model && forall j :: i < j < |rs| ==> rs[j].device != d
  }

  lemma {:induction false} LastForIsLast(rs: seq<Recipient>, d: Device)
    ensures match LastFor(rs, d)
      case None => forall i :: 0 <= i < |rs| ==> rs[i].device != d
      case Some(r) => exists i :: 0 <= i < |rs| && rs[i] == r && r.device == d && forall j :: i < j < |rs| ==> rs[j].device != d
  {
    if rs != [] {
      var n := |rs| - 1;
      if rs[n].device != d {
        LastForIsLast(rs[..n], d);
        assert forall i :: 0 <= i < n ==> rs[..n][i] == rs[i];
        if LastFor(rs, d).Some? {
          var i :| 0 <= i < n && rs[..n][i] == LastFor(rs, d).value && rs[..n][i].device == d && forall j :: i < j < n ==> rs[..n][j].device != d;
          assert rs[i] == LastFor(rs, d).value && forall j :: i < j < |rs| ==> rs[j].device != d;
        }
      }
    }
  }

  lemma {:induction false} MatchingIsLastListed(rs: seq<Recipient>, d: Device, session: Session)
    ensures StillMatching(rs, d, session) <==> LastListed(rs, d, session.model)
  {
    LastForIsLast(rs, d);
  }

  /** A listed session ends exactly if its device's last listing is missing or names another model; its accrual becomes a row. */
  lemma {:induction false} SessionsEnded(s: State, rs: seq<Recipient>, order: seq<Device>, d: Device)
    ensures var t := FinalizeStale(s, rs, order);
      && (d in t.sessions <==> d in s.sessions && (d !in order || LastListed(rs, d, s.sessions[d].model)))
      && (d in t.sessions ==> t.sessions[d] == s.sessions[d])
      && t == s.(sessions := t.sessions, books := Books(s.books.balances, t.books.rows))
    decreases |order|
  {
    hide LastListed, StillMatching;
    if order != [] {
      var e := order[0];
      assert order == [e] + order[1..];
      if e in s.sessions {
        MatchingIsLastListed(rs, e, s.sessions[e]);
      }
      SessionsEnded(FinalizeIfStale(s, rs, e), rs, order[1..], d);
    }
  }

  /** Ending a session writes its accrual, if there is any, as one row for its device, and nothing else. */
  lemma {:induction false} EndingWrites(s: State, d: Device)
    requires d in s.sessions
    ensures Finalize(s, d).books.rows
      == s.books.rows + (if s.sessions[d].accrued > 0 then [Row(d, AvailabilitySession, s.sessions[d].accrued)] else [])
  {
    assert s.books.rows + [] == s.books.rows;
  }

  /** After a tick that is not skipped, exactly the listed devices have been given sessions, each with its last listed model. */
  lemma {:induction false} SessionsAccrued(s: State, rs: seq<Recipient>, d: Device)
    ensures var t := AccrueAll(s, rs);
      && (d in t.sessions <==> d in s.sessions || exists i :: 0 <= i < |rs| && rs[i].device == d)
      && (d in t.devices <==> d in s.devices || exists i :: 0 <= i < |rs| && rs[i].device == d)
      && (d in t.sessions ==> if exists i :: 0 <= i < |rs| && rs[i].device == d then LastListed(rs, d, t.sessions[d].model)
                              else t.sessions[d] == s.sessions[d])
    decreases |rs|
  {
    if rs != [] {
      var rest := rs[1..];
      SessionsAccrued(Accrue(s, rs[0]), rest, d);
      assert forall i :: 0 < i < |rs| ==> rs[i] == rest[i - 1];
      assert (exists i :: 0 <= i < |rs| && rs[i].device == d) <==> rs[0].device == d || exists i :: 0 <= i < |rest| && rest[i].device == d;
      forall model | LastListed(rest, d, model) ensures LastListed(rs, d, model) {
        var i :| 0 <= i < |rest| && rest[i].device == d && rest[i].model == model && forall j :: i < j < |rest| ==> rest[j].device != d;
        assert rs[i + 1] == rest[i];
      }
    }
  }

  lemma {:induction false} FinalizeKeeps(s: State, now: int, d: Device)
    requires Inv(s, now) && d in s.sessions
    ensures Inv(Finalize(s, d), now) && Credits(Finalize(s, d)) == Credits(s)
  {
    hide AccountsOk, EarningsOk, KeysOk, PoolsAgree;
    var row, t := Row(d, AvailabilitySession, s.sessions[d].accrued), Finalize(s, d);
    PlainRowLeavesPools(s.keys, s.books.rows, row);
    forall e ensures Get(t.books.balances, e) == RowSum(t.books.rows, e) + Accrued(t.sessions, e) {
      RowSumAppend(s.books.rows, row, e);
    }
  }

  lemma {:induction false} FinalizeStaleKeeps(s: State, now: int, rs: seq<Recipient>, order: seq<Device>)
    requires Inv(s, now)
    ensures var t := FinalizeStale(s, rs, order); Inv(t, now) && Credits(t) == Credits(s) && t.mint == s.mint && t.accounts == s.accounts
    decreases |order|
  {
    hide Inv, Credits, StillMatching;
    if order != [] {
      var d := order[0];
      if d in s.sessions && !StillMatching(rs, d, s.sessions[d]) {
        FinalizeKeeps(s, now, d);
      }
      FinalizeStaleKeeps(FinalizeIfStale(s, rs, d), now, rs, order[1..]);
    }
  }

  /** All that a list credits to one device. */
  function CreditsFor(rs: seq<Recipient>, d: Device): int {
    if rs == [] then 0 else (if rs[0].device == d then rs[0].credits else 0) + CreditsFor(rs[1..], d)
  }

  lemma {:induction false} AccrueBalance(s: State, rs: seq<Recipient>, d: Device)
    ensures var t := AccrueAll(s, rs);
      && Get(t.books.balances, d) == Get(s.books.balances, d) + CreditsFor(rs, d)
      && Accrued(t.sessions, d) == Accrued(s.sessions, d) + CreditsFor(rs, d)
    decreases |rs|
  {
    if rs != [] {
      AccrueBalance(Accrue(s, rs[0]), rs[1..], d);
    }
  }

  lemma {:induction false} AccrueTotal(s: State, rs: seq<Recipient>)
    ensures var t := AccrueAll(s, rs);
      && t == s.(devices := t.devices, books := Books(t.books.balances, s.books.rows), sessions := t.sessions)
      && Total(t.books.balances) == Total(s.books.balances) + Granted(rs)
    decreases |rs|
  {
    hide Total;
    if rs != [] {
      TotalUpdate(s.books.balances, rs[0].device, Get(s.books.balances, rs[0].device) + rs[0].credits);
      AccrueTotal(Accrue(s, rs[0]), rs[1..]);
    }
  }

  /** No listed device is left with a negative balance or a negative accrual. */
  ghost predicate Solvent(s: State, rs: seq<Recipient>) {
    forall d :: Get(s.books.balances, d) + CreditsFor(rs, d) >= 0 && Accrued(s.sessions, d) + CreditsFor(rs, d) >= 0
  }

  /** A tick of credits of either sign creates exactly what it grants, and is sound exactly if it leaves everyone solvent. */
  lemma {:induction false} AccrueAllKeeps(s: State, now: int, rs: seq<Recipient>)
    requires Inv(s, now)
    ensures var t := AccrueAll(s, rs);
      Credits(t) == Credits(s) + Granted(rs) && t.accounts == s.accounts && (Inv(t, now) <==> Solvent(s, rs))
  {
    hide AccountsOk, EarningsOk, KeysOk, PoolsAgree, RowSum, Total, AccrueAll, CreditsFor, Granted;
    var t := AccrueAll(s, rs);
    AccrueTotal(s, rs);
    forall d ensures Get(t.books.balances, d) == Get(s.books.balances, d) + CreditsFor(rs, d)
             ensures Accrued(t.sessions, d) == Accrued(s.sessions, d) + CreditsFor(rs, d) {
      AccrueBalance(s, rs, d);
    }
    if Solvent(s, rs) {
      assert forall d :: d in t.books.balances ==> t.books.balances[d] == Get(t.books.balances, d);
      assert forall d :: d in t.sessions ==> t.sessions[d].accrued == Accrued(t.sessions, d);
      assert BooksOk(t.books, t.sessions);
    } else {
      var d :| Get(s.books.balances, d) + CreditsFor(rs, d) < 0 || Accrued(s.sessions, d) + CreditsFor(rs, d) < 0;
      assert Get(t.books.balances, d) < 0 || Accrued(t.sessions, d) < 0;
      assert !BooksOk(t.books, t.sessions);
    }
  }

  lemma {:induction false} NoNegativesIsSolvent(s: State, now: int, rs: seq<Recipient>)
    requires Inv(s, now) && NoNegatives(rs)
    ensures Solvent(s, rs)
  {
    hide AccountsOk, EarningsOk, KeysOk, PoolsAgree, RowSum;
    forall d ensures CreditsFor(rs, d) >= 0 { NoNegativeCredits(rs, d); }
  }

  lemma {:induction false} NoNegativeCredits(rs: seq<Recipient>, d: Device)
    requires NoNegatives(rs)
    ensures CreditsFor(rs, d) >= 0
  {
    if rs != [] {
      NoNegativeCredits(rs[1..], d);
    }
  }

  /** What a tick credits. */
  function Dripped(s: State, rs: seq<Recipient>): int {
    if Skips(s, rs) then 0 else Granted(rs)
  }

  /** A tick that is skipped, or that leaves everyone solvent once ended sessions are out. */
  ghost predicate Affords(s: State, rs: seq<Recipient>, order: seq<Device>) {
    Skips(s, rs) || Solvent(FinalizeStale(s, rs, order), rs)
  }

  /** The credits a tick asks of the mint pool: the positive ones. */
  function Asked(rs: seq<Recipient>): int {
    if rs == [] then 0 else (if rs[0].credits > 0 then rs[0].credits else 0) + Asked(rs[1..])
  }

  /** After ending sessions: nothing if the mint pool cannot cover what is asked, and otherwise every listed credit, to its device. */
  ghost predicate Ticked(s: State, t: State, rs: seq<Recipient>, mint: int) {
    if 0 < Asked(rs) && mint < Asked(rs) then t == s
    else
      && t == s.(devices := t.devices, mint := mint - Asked(rs), books := Books(t.books.balances, s.books.rows), sessions := t.sessions)
      && (forall d :: Get(t.books.balances, d) == Get(s.books.balances, d) + CreditsFor(rs, d))
      && (forall d :: Accrued(t.sessions, d) == Accrued(s.sessions, d) + CreditsFor(rs, d))
  }

  lemma {:induction false} AskedIsNeeded(rs: seq<Recipient>)
    ensures Asked(rs) == Needed(rs)
  {
    if rs != [] {
      AskedIsNeeded(rs[1..]);
    }
  }

  lemma {:induction false} TickIs(s: State, rs: seq<Recipient>, order: seq<Device>)
    ensures Ticked(FinalizeStale(s, rs, order), Reconcile(s, rs, order), rs, s.mint)
  {
    hide FinalizeStale, AccrueAll, CreditsFor, Needed, Asked, Total;
    AskedIsNeeded(rs);
    FinalizeStaleMint(s, rs, order);
    var t := FinalizeStale(s, rs, order);
    if !Skips(t, rs) {
      var u := t.(mint := t.mint - Needed(rs));
      AccrueTotal(u, rs);
      forall d ensures Get(AccrueAll(u, rs).books.balances, d) == Get(t.books.balances, d) + CreditsFor(rs, d)
               ensures Accrued(AccrueAll(u, rs).sessions, d) == Accrued(t.sessions, d) + CreditsFor(rs, d) {
        AccrueBalance(u, rs, d);
      }
    }
  }

  lemma {:induction false} ReconcileConserves(s: State, now: int, rs: seq<Recipient>, order: seq<Device>)
    requires Inv(s, now)
    ensures var t := Reconcile(s, rs, order);
      && Credits(t) == Credits(s) + Dripped(s, rs) && t.accounts == s.accounts
      && (Inv(t, now) <==> Affords(s, rs, order)) && (NoNegatives(rs) ==> Affords(s, rs, order))
  {
    hide BooksOk, AccountsOk, EarningsOk, KeysOk, PoolsAgree, CreditsFor, FinalizeStale;
    FinalizeStaleKeeps(s, now, rs, order);
    var t := FinalizeStale(s, rs, order);
    if !Skips(t, rs) {
      var u := t.(mint := t.mint - Needed(rs));
      AccrueAllKeeps(u, now, rs);
      if NoNegatives(rs) {
        NoNegativesIsSolvent(u, now, rs);
      }
    }
  }

  /** A tick creates exactly what it credits, whatever the signs, and keeps the ledger sound exactly if it is affordable. */
  lemma {:induction false} ReconcileKeeps(s: State, now: int, rs: seq<Recipient>, order: seq<Device>)
    requires Inv(s, now)
    ensures var t := Reconcile(s, rs, order);
      && Credits(t) == Credits(s) + Dripped(s, rs) && t.accounts == s.accounts
      && (Inv(t, now) <==> Affords(s, rs, order)) && (NoNegatives(rs) ==> Affords(s, rs, order))
      && Ticked(FinalizeStale(s, rs, order), t, rs, s.mint)
  {
    hide Inv, Credits, Reconcile, FinalizeStale, Ticked, Affords, Dripped;
    ReconcileConserves(s, now, rs, order);
    TickIs(s, rs, order);
  }

  lemma {:induction false} NeededVersusGranted(rs: seq<Recipient>)
    ensures Needed(rs) >= Granted(rs)
    ensures Needed(rs) == Granted(rs) <==> NoNegatives(rs)
  {
    if rs != [] {
      NeededVersusGranted(rs[1..]);
      assert NoNegatives(rs) <==> rs[0].credits >= 0 && NoNegatives(rs[1..]);
    }
  }

  lemma {:induction false} AccrueAllMint(s: State, rs: seq<Recipient>)
    ensures AccrueAll(s, rs).mint == s.mint
    decreases |rs|
  {
    if rs != [] {
      AccrueAllMint(Accrue(s, rs[0]), rs[1..]);
    }
  }

  lemma {:induction false} FinalizeStaleMint(s: State, rs: seq<Recipient>, order: seq<Device>)
    ensures FinalizeStale(s, rs, order).mint == s.mint
    decreases |order|
  {
    if order != [] {
      FinalizeStaleMint(FinalizeIfStale(s, rs, order[0]), rs, order[1..]);
    }
  }

  /** One recipient with a negative credit: the mint pool is left alone, and a credit is taken all the same. */
  lemma {:induction false} NegativeDrip(s: State, d: Device)
    ensures var t := Reconcile(s, [Recipient(d, -1, None)], []);
      t.mint == s.mint && Get(t.books.balances, d) == Get(s.books.balances, d) - 1
  {
    var rs := [Recipient(d, -1, None)];
    assert rs[1..] == [] && Needed([]) == 0 && Needed(rs) == 0;
    assert AccrueAll(Accrue(s, rs[0]), []) == Accrue(s, rs[0]);
  }

  /** A tick lowers the mint pool by exactly what it credits, unless a recipient is listed with negative credits. */
  lemma {:induction false} MintPaysTheDrip(s: State, rs: seq<Recipient>, order: seq<Device>)
    ensures s.mint - Reconcile(s, rs, order).mint == Dripped(s, rs) <==> Skips(s, rs) || NoNegatives(rs)
  {
    FinalizeStaleMint(s, rs, order);
    NeededVersusGranted(rs);
    var t := FinalizeStale(s, rs, order);
    AccrueAllMint(t.(mint := t.mint - Needed(rs)), rs);
  }
}
