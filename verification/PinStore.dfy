/** The membership functions as the gateway runs them, updating the pins and pin_members tables in place. */
module PinStore {
  import opened Prelude
  import opened Pins

  class Store {
    var pins: map<PinId, Pin>
    var members: map<(PinId, DeviceId), Member>
    var admins: set<(PinId, Account)>

    ghost function Tables(): State
      reads this
    {
      State(pins, members, admins)
    }

    constructor ()
      ensures Tables() == START
    {
      pins, members, admins := map[], map[], {};
    }

    method BumpGeneration(p: PinId)
      modifies this`pins
      ensures Tables() == Bump(old(Tables()), p)
    {
      if p in pins {
        pins := pins[p := pins[p].(generation := pins[p].generation + 1)];
      }
    }

    method SubmitJoin(now: int, p: PinId, d: DeviceId, nodeKey: string, name: Option<string>) returns (r: Result<(), Error>)
      modifies this`members
      ensures Reports(r, Pins.SubmitJoin(old(Tables()), now, p, d, nodeKey, name), old(Tables()), Tables())
    {
      if (p, d) !in members {
        if p !in pins {
          return Err(UnknownPin);
        }
        members := members[(p, d) := Member(nodeKey, name, Pending, true, false, now, None, None)];
        return Ok(());
      }
      var m := members[(p, d)];
      match m.status {
        case Pending | Removed =>
          m := m.(status := Pending, nodeKey := nodeKey, requestedAt := now, approvedBy := None, joinedAt := None);
          if name.Some? {
            m := m.(name := name);
          }
          members := members[(p, d) := m];
        case Active | Disabled =>
      }
      return Ok(());
    }

    method ApproveMember(now: int, p: PinId, d: DeviceId, approver: Account) returns (r: Result<(), Error>)
      modifies this`members, this`pins
      ensures Reports(r, Approve(old(Tables()), now, p, d, approver), old(Tables()), Tables())
    {
      if !((p in pins && pins[p].owner == approver) || (p, approver) in admins) {
        return Err(NotAdmin);
      }
      if (p, d) !in members || members[(p, d)].status != Pending {
        return Err(NoPendingRequest);
      }
      members := members[(p, d) := members[(p, d)].(status := Active, approvedBy := Some(approver), joinedAt := Some(now))];
      BumpGeneration(p);
      return Ok(());
    }

    method DenyMember(p: PinId, d: DeviceId) returns (r: Result<(), Error>)
      modifies this`members
      ensures Reports(r, Deny(old(Tables()), p, d), old(Tables()), Tables())
    {
      if (p, d) !in members || members[(p, d)].status != Pending {
        return Err(NoPendingRequest);
      }
      members := members - {(p, d)};
      return Ok(());
    }

    method RemoveMember(p: PinId, d: DeviceId) returns (r: Result<(), Error>)
      modifies this`members, this`pins
      ensures Reports(r, Remove(old(Tables()), p, d), old(Tables()), Tables())
    {
      if (p, d) !in members || !(members[(p, d)].status == Active || members[(p, d)].status == Disabled) {
        return Err(NotAMember);
      }
      members := members[(p, d) := members[(p, d)].(status := Removed)];
      BumpGeneration(p);
      return Ok(());
    }

    method SetMemberDisabled(p: PinId, d: DeviceId, disabled: bool) returns (r: Result<(), Error>)
      modifies this`members, this`pins
      ensures Reports(r, SetDisabled(old(Tables()), p, d, disabled), old(Tables()), Tables())
    {
      var from, to := if disabled then Active else Disabled, if disabled then Disabled else Active;
      if (p, d) !in members || members[(p, d)].status != from {
        return Err(WrongStatus);
      }
      members := members[(p, d) := members[(p, d)].(status := to)];
      BumpGeneration(p);
      return Ok(());
    }

    method UpdateMember(p: PinId, d: DeviceId, name: Option<string>, serves: Option<bool>) returns (r: Result<(), Error>)
      modifies this`members, this`pins
      ensures Reports(r, Update(old(Tables()), p, d, name, serves), old(Tables()), Tables())
    {
      var bump := false;
      if name.Some? {
        if (p, d) !in members {
          return Err(NotAMember);
        }
        members := members[(p, d) := members[(p, d)].(name := name)];
      }
      if serves.Some? && (p, d) in members && members[(p, d)].servesModels != serves.value {
        members := members[(p, d) := members[(p, d)].(servesModels := serves.value)];
        bump := true;
      }
      if bump {
        BumpGeneration(p);
      }
      return Ok(());
    }

    method SetMemberOffersExit(p: PinId, d: DeviceId, offers: bool)
      modifies this`members, this`pins
      ensures Tables() == SetOffersExit(old(Tables()), p, d, offers)
    {
      if (p, d) in members && members[(p, d)].offersExit != offers {
        members := members[(p, d) := members[(p, d)].(offersExit := offers)];
        BumpGeneration(p);
      }
    }

    /** The listed members, with their display names, and the generation they were read at. */
    method BuildNetmap(p: PinId) returns (r: Result<(int, map<DeviceId, (Entry, Option<string>)>), Error>)
      ensures r.Ok? <==> p in pins
      ensures r.Ok? ==> r.value.0 == Generation(Tables(), p)
      ensures r.Ok? ==> forall d :: Shown(Tables(), p, d) == (if d in r.value.1 then Some(r.value.1[d].0) else None)
      ensures r.Ok? ==> forall d :: d in r.value.1 ==> (p, d) in members && r.value.1[d].1 == members[(p, d)].name
    {
      if p !in pins {
        return Err(UnknownPin);
      }
      var listed := map k | k in members && k.0 == p && (members[k].status == Active || members[k].status == Disabled)
        :: k.1 := (Entry(members[k].nodeKey, members[k].status == Disabled, members[k].servesModels, members[k].offersExit), members[k].name);
      return Ok((pins[p].generation, listed));
    }
  }
}
