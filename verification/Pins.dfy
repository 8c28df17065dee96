/** Membership of private inference networks and the netmap generation that tells peers when to re-fetch. */
module Pins {
  import opened Prelude

  type PinId = string
  type DeviceId = string
  type Account = string

  datatype Status = Pending | Active | Disabled | Removed

  datatype Member = Member(nodeKey: string, name: Option<string>, status: Status, servesModels: bool, offersExit: bool,
                           requestedAt: int, approvedBy: Option<Account>, joinedAt: Option<int>)

  datatype Pin = Pin(owner: Account, generation: int)

  datatype State = State(pins: map<PinId, Pin>, members: map<(PinId, DeviceId), Member>, admins: set<(PinId, Account)>)

  datatype Error = UnknownPin | NotAdmin | NoPendingRequest | NotAMember | WrongStatus

  type Outcome = Result<State, Error>

  // ---- operations ----

  function Has(s: State, p: PinId, d: DeviceId, statuses: set<Status>): bool {
    (p, d) in s.members && s.members[(p, d)].status in statuses
  }

  function Put(s: State, p: PinId, d: DeviceId, m: Member): State {
    s.(members := s.members[(p, d) := m])
  }

  /** The statement that tells peers their netmap is stale. */
  function Bump(s: State, p: PinId): State {
    if p in s.pins then s.(pins := s.pins[p := s.pins[p].(generation := s.pins[p].generation + 1)]) else s
  }

  function SubmitJoin(s: State, now: int, p: PinId, d: DeviceId, nodeKey: string, name: Option<string>): Outcome {
    if (p, d) !in s.members then
      if p !in s.pins then Err(UnknownPin)
      else Ok(Put(s, p, d, Member(nodeKey, name, Pending, true, false, now, None, None)))
    else if Has(s, p, d, {Pending, Removed}) then
      var m := s.members[(p, d)];
      Ok(Put(s, p, d, m.(status := Pending, nodeKey := nodeKey, name := if name.Some? then name else m.name,
                         requestedAt := now, approvedBy := None, joinedAt := None)))
    else Ok(s)
  }

  predicate IsAdmin(s: State, p: PinId, a: Account) {
    (p in s.pins && s.pins[p].owner == a) || (p, a) in s.admins
  }

  function Approve(s: State, now: int, p: PinId, d: DeviceId, approver: Account): Outcome {
    if !IsAdmin(s, p, approver) then Err(NotAdmin)
    else if !Has(s, p, d, {Pending}) then Err(NoPendingRequest)
    else Ok(Bump(Put(s, p, d, s.members[(p, d)].(status := Active, approvedBy := Some(approver), joinedAt := Some(now))), p))
  }

  function Deny(s: State, p: PinId, d: DeviceId): Outcome {
    if !Has(s, p, d, {Pending}) then Err(NoPendingRequest) else Ok(s.(members := s.members - {(p, d)}))
  }

  function Remove(s: State, p: PinId, d: DeviceId): Outcome {
    if !Has(s, p, d, {Active, Disabled}) then Err(NotAMember)
    else Ok(Bump(Put(s, p, d, s.members[(p, d)].(status := Removed)), p))
  }

  function SetDisabled(s: State, p: PinId, d: DeviceId, disabled: bool): Outcome {
    var (from, to) := if disabled then (Active, Disabled) else (Disabled, Active);
    if !Has(s, p, d, {from}) then Err(WrongStatus)
    else Ok(Bump(Put(s, p, d, s.members[(p, d)].(status := to)), p))
  }

  function Update(s: State, p: PinId, d: DeviceId, name: Option<string>, serves: Option<bool>): Outcome {
    if name.Some? && (p, d) !in s.members then Err(NotAMember)
    else
      var t := if name.Some? then Put(s, p, d, s.members[(p, d)].(name := name)) else s;
      if serves.Some? && (p, d) in t.members && t.members[(p, d)].servesModels != serves.value
      then Ok(Bump(Put(t, p, d, t.members[(p, d)].(servesModels := serves.value)), p))
      else Ok(t)
  }

  function SetOffersExit(s: State, p: PinId, d: DeviceId, offers: bool): State {
    if (p, d) in s.members && s.members[(p, d)].offersExit != offers
    then Bump(Put(s, p, d, s.members[(p, d)].(offersExit := offers)), p)
    else s
  }

  // ---- the netmap ----

  datatype Entry = Entry(nodeKey: string, disabled: bool, servesModels: bool, offersExit: bool)

  predicate Listed(s: State, p: PinId, d: DeviceId) {
    Has(s, p, d, {Active, Disabled})
  }

  function EntryOf(m: Member): Entry {
    Entry(m.nodeKey, m.status.Disabled?, m.servesModels, m.offersExit)
  }

  /** What the netmap says of a device, if it lists it. */
  function Shown(s: State, p: PinId, d: DeviceId): Option<Entry> {
    if Listed(s, p, d) then Some(EntryOf(s.members[(p, d)])) else None
  }

  function Generation(s: State, p: PinId): int {
    if p in s.pins then s.pins[p].generation else 0
  }

  // ---- runs ----

  datatype Op =
    | CreatePin(pin: PinId, owner: Account)
    | GrantAdmin(pin: PinId, account: Account)
    | DoSubmitJoin(pin: PinId, device: DeviceId, nodeKey: string, name: Option<string>)
    | DoApprove(pin: PinId, device: DeviceId, approver: Account)
    | DoDeny(pin: PinId, device: DeviceId)
    | DoRemove(pin: PinId, device: DeviceId)
    | DoSetDisabled(pin: PinId, device: DeviceId, disabled: bool)
    | DoUpdate(pin: PinId, device: DeviceId, name: Option<string>, serves: Option<bool>)
    | DoSetOffersExit(pin: PinId, device: DeviceId, offers: bool)

  function Apply(s: State, now: int, op: Op): Outcome {
    match op
    case CreatePin(p, owner) => if p in s.pins then Err(UnknownPin) else Ok(s.(pins := s.pins[p := Pin(owner, 1)]))
    case GrantAdmin(p, a) => if p in s.pins then Ok(s.(admins := s.admins + {(p, a)})) else Err(UnknownPin)
    case DoSubmitJoin(p, d, nodeKey, name) => SubmitJoin(s, now, p, d, nodeKey, name)
    case DoApprove(p, d, approver) => Approve(s, now, p, d, approver)
    case DoDeny(p, d) => Deny(s, p, d)
    case DoRemove(p, d) => Remove(s, p, d)
    case DoSetDisabled(p, d, disabled) => SetDisabled(s, p, d, disabled)
    case DoUpdate(p, d, name, serves) => Update(s, p, d, name, serves)
    case DoSetOffersExit(p, d, offers) => Ok(SetOffersExit(s, p, d, offers))
  }

  function Step(s: State, now: int, op: Op): State {
    match Apply(s, now, op) case Ok(t) => t case Err(_) => s
  }

  type Trace = seq<(int, Op)>

  const START := State(map[], map[], {})

  function Run(trace: Trace): State {
    if trace == [] then START
    else var n := |trace| - 1; Step(Run(trace[..n]), trace[n].0, trace[n].1)
  }

  predicate Forward(trace: Trace) {
    |trace| < 2 || (Forward(trace[..|trace| - 1]) && trace[|trace| - 2].0 <= trace[|trace| - 1].0)
  }

  function End(trace: Trace): int { if trace == [] then 0 else trace[|trace| - 1].0 }

  ghost predicate MembersOk(s: State) {
    forall p, d :: (p, d) in s.members ==> p in s.pins
  }

  /** Listed members carry an approval no older than their last request. */
  ghost predicate ApprovalsOk(s: State) {
    forall p, d :: Listed(s, p, d) ==> Approved(s.members[(p, d)])
  }

  predicate Approved(m: Member) {
    m.approvedBy.Some? && m.joinedAt.Some? && m.requestedAt <= m.joinedAt.value
  }

  ghost predicate RequestsBefore(s: State, now: int) {
    forall k :: k in s.members ==> s.members[k].requestedAt <= now
  }

  /** An operation either leaves a network's netmap as it was or raises its generation. */
  lemma {:induction false} StepBumps(s: State, now: int, op: Op, p: PinId, d: DeviceId)
    requires MembersOk(s) && p in s.pins
    ensures var t := Step(s, now, op);
      && MembersOk(t) && p in t.pins && Generation(t, p) >= Generation(s, p)
      && (Generation(t, p) == Generation(s, p) ==> Shown(t, p, d) == Shown(s, p, d))
  {}

  lemma {:induction false} StepMembersOk(s: State, now: int, op: Op)
    requires MembersOk(s)
    ensures MembersOk(Step(s, now, op))
  {}

  lemma {:induction false} RunMembersOk(trace: Trace)
    ensures MembersOk(Run(trace))
  {
    if trace != [] {
      var n := |trace| - 1;
      RunMembersOk(trace[..n]);
      StepMembersOk(Run(trace[..n]), trace[n].0, trace[n].1);
    }
  }

  /**
   The generation is a sound cache key: between any two moments of a run it never falls, and if it is
   equal the netmap lists the same devices with the same key, flags and roles.
   */
  lemma {:induction false} GenerationIsCacheKey(earlier: Trace, more: Trace, p: PinId, d: DeviceId)
    requires p in Run(earlier).pins
    ensures var s, t := Run(earlier), Run(earlier + more);
      && p in t.pins && Generation(s, p) <= Generation(t, p)
      && (Generation(s, p) == Generation(t, p) ==> Shown(s, p, d) == Shown(t, p, d))
    decreases |more|
  {
    hide Step, Shown;
    if more == [] {
      assert earlier + more == earlier;
    } else {
      var n := |more| - 1;
      var all := earlier + more;
      assert all[..|all| - 1] == earlier + more[..n] && all[|all| - 1] == more[n];
      GenerationIsCacheKey(earlier, more[..n], p, d);
      RunMembersOk(earlier + more[..n]);
      StepBumps(Run(earlier + more[..n]), more[n].0, more[n].1, p, d);
    }
  }

  lemma {:induction false} StepApprovals(s: State, now: int, op: Op)
    requires ApprovalsOk(s) && RequestsBefore(s, now)
    ensures ApprovalsOk(Step(s, now, op))
  {
    hide Step;
    forall p, d | Listed(Step(s, now, op), p, d) ensures Approved(Step(s, now, op).members[(p, d)]) {
      StepApproval(s, now, op, p, d);
    }
  }

  lemma {:induction false} StepApproval(s: State, now: int, op: Op, p: PinId, d: DeviceId)
    requires Listed(s, p, d) ==> Approved(s.members[(p, d)])
    requires (p, d) in s.members ==> s.members[(p, d)].requestedAt <= now
    ensures Listed(Step(s, now, op), p, d) ==> Approved(Step(s, now, op).members[(p, d)])
  {}

  lemma {:induction false} StepRequests(s: State, now: int, op: Op)
    requires RequestsBefore(s, now)
    ensures RequestsBefore(Step(s, now, op), now)
  {}

  lemma {:induction false} ListedMembersAreApproved(trace: Trace)
    requires Forward(trace)
    ensures ApprovalsOk(Run(trace)) && (trace != [] ==> RequestsBefore(Run(trace), End(trace)))
  {
    hide Step, ApprovalsOk;
    if trace == [] {
      NobodyListed();
    } else {
      var n := |trace| - 1;
      ListedMembersAreApproved(trace[..n]);
      StepApprovals(Run(trace[..n]), trace[n].0, trace[n].1);
      StepRequests(Run(trace[..n]), trace[n].0, trace[n].1);
    }
  }

  lemma {:induction false} NobodyListed()
    ensures ApprovalsOk(START)
  {}

  /** Whether an accepted approval came after the last request that put the device in the queue. */
  function ApprovedSinceRequest(trace: Trace, p: PinId, d: DeviceId): bool {
    if trace == [] then false
    else
      var n := |trace| - 1;
      var s, op := Run(trace[..n]), trace[n].1;
      if op.DoApprove? && op.pin == p && op.device == d && Apply(s, trace[n].0, op).Ok? then true
      else if op.DoSubmitJoin? && op.pin == p && op.device == d && !Listed(s, p, d) && Apply(s, trace[n].0, op).Ok? then false
      else ApprovedSinceRequest(trace[..n], p, d)
  }

  /** Nobody is listed without an approval after their last request, in any run. */
  lemma {:induction false} NoListingWithoutApproval(trace: Trace, p: PinId, d: DeviceId)
    requires Listed(Run(trace), p, d)
    ensures ApprovedSinceRequest(trace, p, d)
  {
    if trace != [] {
      var n := |trace| - 1;
      if Listed(Run(trace[..n]), p, d) {
        NoListingWithoutApproval(trace[..n], p, d);
      } else {
        OnlyApprovalLists(Run(trace[..n]), trace[n].0, trace[n].1, p, d);
      }
    }
  }

  lemma {:induction false} OnlyApprovalLists(s: State, now: int, op: Op, p: PinId, d: DeviceId)
    requires !Listed(s, p, d) && Listed(Step(s, now, op), p, d)
    ensures op.DoApprove? && op.pin == p && op.device == d && Apply(s, now, op).Ok?
  {}

  // ---- what each operation does, and when it is accepted ----

  function StatusOf(s: State, p: PinId, d: DeviceId): Option<Status> {
    if (p, d) in s.members then Some(s.members[(p, d)].status) else None
  }

  /** Nothing but the row of one device and its network's generation may differ; every other device is shown as before. */
  ghost predicate OnlyRow(t: State, s: State, p: PinId, d: DeviceId) {
    && t.admins == s.admins && t.pins.Keys == s.pins.Keys
    && (forall q :: q in s.pins ==> t.pins[q].owner == s.pins[q].owner && (q != p ==> t.pins[q] == s.pins[q]))
    && (forall k :: k != (p, d) ==> (k in t.members <==> k in s.members))
    && (forall k :: k != (p, d) && k in s.members ==> t.members[k] == s.members[k])
  }

  ghost predicate OnlyMember(t: State, s: State, p: PinId, d: DeviceId) {
    OnlyRow(t, s, p, d) && forall q, e :: (q, e) != (p, d) ==> Shown(t, q, e) == Shown(s, q, e)
  }

  lemma {:induction false} ShownElsewhere(t: State, s: State, p: PinId, d: DeviceId)
    requires OnlyRow(t, s, p, d)
    ensures OnlyMember(t, s, p, d)
  {}

  ghost predicate Raised(t: State, s: State, p: PinId) {
    p in s.pins ==> p in t.pins && t.pins[p].generation == s.pins[p].generation + 1
  }

  /** The row now waits for approval: what the request says, nothing approved, and the rest as it was or as a new row starts. */
  ghost predicate Requested(t: State, s: State, now: int, p: PinId, d: DeviceId, nodeKey: string, name: Option<string>) {
    && (p, d) in t.members
    && var m := t.members[(p, d)];
    && m.status == Pending && m.nodeKey == nodeKey && m.requestedAt == now && m.approvedBy == None && m.joinedAt == None
    && (if (p, d) in s.members
        then m.name == (if name == None then s.members[(p, d)].name else name)
             && m.servesModels == s.members[(p, d)].servesModels && m.offersExit == s.members[(p, d)].offersExit
        else m.name == name && m.servesModels && !m.offersExit)
  }

  /** A knock is refused only at a network that does not exist, ignored from a device in it, and otherwise queues a request. */
  lemma {:induction false} JoinEffect(s: State, now: int, p: PinId, d: DeviceId, nodeKey: string, name: Option<string>)
    ensures match SubmitJoin(s, now, p, d, nodeKey, name)
      case Err(e) => e == UnknownPin && StatusOf(s, p, d) == None && p !in s.pins
      case Ok(t) =>
        && (StatusOf(s, p, d) != None || p in s.pins) && t.pins == s.pins && OnlyMember(t, s, p, d)
        && if StatusOf(s, p, d) in {Some(Active), Some(Disabled)} then t == s
           else Requested(t, s, now, p, d, nodeKey, name) && Shown(t, p, d) == None
  {
    hide OnlyMember;
    match SubmitJoin(s, now, p, d, nodeKey, name)
    case Err(_) =>
    case Ok(t) => ShownElsewhere(t, s, p, d);
  }

  /** Approval is the owner's or an admin's, of a pending request; the device is then shown, and not as disabled. */
  lemma {:induction false} ApproveEffect(s: State, now: int, p: PinId, d: DeviceId, approver: Account)
    ensures match Approve(s, now, p, d, approver)
      case Err(e) => e == if (p in s.pins && s.pins[p].owner == approver) || (p, approver) in s.admins
        then NoPendingRequest else NotAdmin
      case Ok(t) =>
        && ((p in s.pins && s.pins[p].owner == approver) || (p, approver) in s.admins)
        && StatusOf(s, p, d) == Some(Pending) && (p, d) in t.members && OnlyMember(t, s, p, d) && Raised(t, s, p)
        && var m := s.members[(p, d)];
        && Shown(t, p, d) == Some(Entry(m.nodeKey, false, m.servesModels, m.offersExit))
        && t.members[(p, d)] == m.(status := Active, approvedBy := Some(approver), joinedAt := Some(now))
    ensures Approve(s, now, p, d, approver) == Err(NoPendingRequest) ==> StatusOf(s, p, d) != Some(Pending)
  {
    hide OnlyMember;
    match Approve(s, now, p, d, approver)
    case Err(_) =>
    case Ok(t) => ShownElsewhere(t, s, p, d);
  }

  /** A pending request, and nothing else, can be denied; the row is gone and no netmap changes. */
  lemma {:induction false} DenyEffect(s: State, p: PinId, d: DeviceId)
    ensures match Deny(s, p, d)
      case Err(e) => e == NoPendingRequest && StatusOf(s, p, d) != Some(Pending)
      case Ok(t) => StatusOf(s, p, d) == Some(Pending) && (p, d) !in t.members && t.pins == s.pins && OnlyMember(t, s, p, d)
  {
    hide OnlyMember;
    match Deny(s, p, d)
    case Err(_) =>
    case Ok(t) => ShownElsewhere(t, s, p, d);
  }

  /** A device in the network, disabled or not, can be removed; it is no longer shown and its row says so. */
  lemma {:induction false} RemoveEffect(s: State, p: PinId, d: DeviceId)
    ensures match Remove(s, p, d)
      case Err(e) => e == NotAMember && StatusOf(s, p, d) !in {Some(Active), Some(Disabled)}
      case Ok(t) =>
        && StatusOf(s, p, d) in {Some(Active), Some(Disabled)} && OnlyMember(t, s, p, d) && Raised(t, s, p)
        && Shown(t, p, d) == None && !Listed(t, p, d)
        && (p, d) in t.members && t.members[(p, d)] == s.members[(p, d)].(status := Removed)
  {
    hide OnlyMember;
    match Remove(s, p, d)
    case Err(_) =>
    case Ok(t) => ShownElsewhere(t, s, p, d);
  }

  /** Only an active device can be disabled and only a disabled one enabled; it is shown with that flag and otherwise as before. */
  lemma {:induction false} SetDisabledEffect(s: State, p: PinId, d: DeviceId, disabled: bool)
    ensures match SetDisabled(s, p, d, disabled)
      case Err(e) => e == WrongStatus && StatusOf(s, p, d) != Some(if disabled then Active else Disabled)
      case Ok(t) =>
        && StatusOf(s, p, d) == Some(if disabled then Active else Disabled) && OnlyMember(t, s, p, d) && Raised(t, s, p)
        && Shown(s, p, d).Some? && Shown(t, p, d) == Some(Shown(s, p, d).value.(disabled := disabled))
        && (p, d) in t.members && t.members[(p, d)] == s.members[(p, d)].(status := t.members[(p, d)].status)
  {
    hide OnlyMember;
    match SetDisabled(s, p, d, disabled)
    case Err(_) =>
    case Ok(t) => ShownElsewhere(t, s, p, d);
  }

  /** A rename needs a row; the name and the serving flag become what was given, and only a changed flag raises the generation. */
  lemma {:induction false} UpdateEffect(s: State, p: PinId, d: DeviceId, name: Option<string>, serves: Option<bool>)
    ensures match Update(s, p, d, name, serves)
      case Err(e) => e == NotAMember && name != None && (p, d) !in s.members
      case Ok(t) =>
        && (name == None || (p, d) in s.members) && OnlyMember(t, s, p, d)
        && ((p, d) in t.members <==> (p, d) in s.members)
        && if (p, d) !in s.members then t == s
           else
             var m := s.members[(p, d)];
             && t.members[(p, d)] == m.(name := if name == None then m.name else name,
                                        servesModels := if serves == None then m.servesModels else serves.value)
             && if serves == Some(!m.servesModels) then Raised(t, s, p) else t.pins == s.pins
  {
    hide OnlyMember;
    match Update(s, p, d, name, serves)
    case Err(_) =>
    case Ok(t) => ShownElsewhere(t, s, p, d);
  }

  /** The exit flag of a row becomes what was given, and only a change raises the generation. */
  lemma {:induction false} SetOffersExitEffect(s: State, p: PinId, d: DeviceId, offers: bool)
    ensures var t := SetOffersExit(s, p, d, offers);
      && OnlyMember(t, s, p, d) && ((p, d) in t.members <==> (p, d) in s.members)
      && if (p, d) !in s.members then t == s
         else
           && t.members[(p, d)] == s.members[(p, d)].(offersExit := offers)
           && if s.members[(p, d)].offersExit == offers then t.pins == s.pins else Raised(t, s, p)
  {
    hide OnlyMember;
    ShownElsewhere(SetOffersExit(s, p, d, offers), s, p, d);
  }

  // ---- a removed device stays out ----

  /** Step i of the run approved the device, and was accepted. */
  predicate ApprovedAt(trace: Trace, i: nat, p: PinId, d: DeviceId)
    requires i < |trace|
  {
    trace[i].1.DoApprove? && trace[i].1.pin == p && trace[i].1.device == d && Apply(Run(trace[..i]), trace[i].0, trace[i].1).Ok?
  }

  /** Once removed, a device is not listed at any later moment before an accepted approval, whatever else happens. */
  lemma {:induction false} RemovedUntilApproved(trace: Trace, at: nat, p: PinId, d: DeviceId)
    requires at < |trace| && trace[at].1 == DoRemove(p, d) && Apply(Run(trace[..at]), trace[at].0, trace[at].1).Ok?
    requires forall i: nat :: at < i < |trace| ==> !ApprovedAt(trace, i, p, d)
    ensures !Listed(Run(trace), p, d)
    decreases |trace|
  {
    hide Step, Listed;
    var n := |trace| - 1;
    var before := Run(trace[..n]);
    if at == n {
      assert !Listed(Step(before, trace[n].0, trace[n].1), p, d) by { RemovedIsOut(before, trace[n].0, p, d); }
    } else {
      assert trace[..n][..at] == trace[..at];
      forall i: nat | at < i < n ensures !ApprovedAt(trace[..n], i, p, d) {
        assert trace[..n][..i] == trace[..i] && !ApprovedAt(trace, i, p, d);
      }
      RemovedUntilApproved(trace[..n], at, p, d);
      assert !ApprovedAt(trace, n, p, d);
      if Listed(Run(trace), p, d) {
        OnlyApprovalLists(before, trace[n].0, trace[n].1, p, d);
        assert false;
      }
    }
  }

  lemma {:induction false} RemovedIsOut(s: State, now: int, p: PinId, d: DeviceId)
    requires Apply(s, now, DoRemove(p, d)).Ok?
    ensures !Listed(Step(s, now, DoRemove(p, d)), p, d)
  {
    RemoveEffect(s, p, d);
  }

  /** A new network starts at generation one with its owner and nobody else's rights; an admin is added to an existing one. */
  lemma {:induction false} NetworksEffect(s: State, now: int, p: PinId, a: Account)
    ensures match Apply(s, now, CreatePin(p, a))
      case Err(_) => p in s.pins
      case Ok(t) =>
        && p !in s.pins && t == s.(pins := t.pins) && t.pins.Keys == s.pins.Keys + {p}
        && t.pins[p] == Pin(a, 1) && forall q :: q in s.pins ==> t.pins[q] == s.pins[q]
    ensures match Apply(s, now, GrantAdmin(p, a))
      case Err(e) => e == UnknownPin && p !in s.pins
      case Ok(t) => p in s.pins && t == s.(admins := t.admins) && forall k :: k in t.admins <==> k in s.admins || k == (p, a)
  {}
}
