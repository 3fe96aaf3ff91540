/**
 The services over both tables: invitations, users, members and the Keycloak sync. A method is one
 atomic operation; its loops and branches are the source's, and its contract ties the new tables to
 the table functions whose laws are proved in Invitations and AccessRows.
 */
module Tenancy {
  import opened Prelude
  import I = Invitations
  import A = AccessRows

  function KeyOf(person: string, inv: I.Invitation): A.RowKey {
    A.RowKey(person, inv.clientId, inv.offer.siteId, inv.offer.roleId)
  }

  function KeysOf(t: I.Table, person: string, order: seq<nat>): (ks: seq<A.RowKey>)
    requires forall i :: 0 <= i < |order| ==> order[i] < |t|
    ensures |ks| == |order|
    ensures forall i :: 0 <= i < |ks| ==> ks[i] == KeyOf(person, t[order[i]])
  {
    seq(|order|, i requires 0 <= i < |order| => KeyOf(person, t[order[i]]))
  }

  /** Position of the clicked invitation among those accepted; 0 if it is not there. */
  function ClickedIndex(t: I.Table, order: seq<nat>, code: string): (r: nat)
    requires forall i :: 0 <= i < |order| ==> order[i] < |t|
    ensures r < |order| || r == 0
    ensures (exists i :: 0 <= i < |order| && t[order[i]].code == code) ==> r < |order| && t[order[r]].code == code
  {
    if order == [] then 0
    else
      var n := |order| - 1;
      if exists i :: 0 <= i < n && t[order[i]].code == code then ClickedIndex(t, order[..n], code)
      else if t[order[n]].code == code then n
      else 0
  }

  /** `order` and `first` are results the queries of an accept may return. */
  ghost predicate AcceptReads(t: I.Table, a: A.Table, code: string, person: string, email: string, now: int,
                              order: seq<nat>, first: Option<A.RowKey>)
  {
    var check := I.AcceptCheck(t, code, email, now);
    if check.Ok? then
      && I.Lists(order, I.Together(t, check.value)) && (forall i :: 0 <= i < |order| ==> order[i] < |t|)
      && A.FirstPrimary(a, person, first)
    else order == []
  }

  function AcceptAccess(t: I.Table, a: A.Table, code: string, person: string, email: string, now: int,
                        order: seq<nat>, first: Option<A.RowKey>): A.Table
    requires forall i :: 0 <= i < |order| ==> order[i] < |t|
  {
    if I.AcceptCheck(t, code, email, now).Err? then a
    else A.AcceptRows(a, KeysOf(t, person, order), ClickedIndex(t, order, code), first, now)
  }

  datatype MemberError = PersonNotFound | HasRoleAlready | HasNotTheRole | LastRole

  class Database {
    var invitations: I.Table
    var access: A.Table

    constructor ()
      ensures invitations == [] && access == map[]
    {
      invitations, access := [], map[];
    }

    // ---- Invitations ----

    method CountByEmail(offers: seq<I.Offer>) returns (counts: map<string, nat>)
      ensures forall e :: (if e in counts then counts[e] else 0) == I.CountEmail(offers, e)
    {
      counts := map[];
      for i := 0 to |offers|
        invariant forall e :: (if e in counts then counts[e] else 0) == I.CountEmail(offers[..i], e)
      {
        var email := offers[i].email;
        counts := counts[email := (if email in counts then counts[email] else 0) + 1];
        assert offers[..i + 1][..i] == offers[..i];
      }
      assert offers[..|offers|] == offers;
    }

    /** A generated group id for each email that occurs more than once. */
    method AssignGroups(offers: seq<I.Offer>, gen: I.Generated) returns (groupIds: map<string, string>)
      requires forall i :: 0 <= i < |offers| && I.CountEmail(offers, offers[i].email) > 1 ==>
        offers[i].email in gen.groups
      ensures forall i :: 0 <= i < |offers| ==>
        (if offers[i].email in groupIds then Some(groupIds[offers[i].email]) else None)
        == I.GroupFor(offers, gen, offers[i].email)
    {
      var counts := CountByEmail(offers);
      groupIds := map[];
      var rest := counts.Keys;
      while rest != {}
        invariant rest <= counts.Keys
        invariant forall e :: e in counts.Keys - rest ==>
          (if e in groupIds then Some(groupIds[e]) else None) == I.GroupFor(offers, gen, e)
        invariant groupIds.Keys !! rest && groupIds.Keys <= counts.Keys
        decreases rest
      {
        var email :| email in rest;
        rest := rest - {email};
        if counts[email] > 1 && email in gen.groups {
          groupIds := groupIds[email := gen.groups[email]];
        }
      }
    }

    /** The first site that is missing or of another client. */
    method CheckSites(offers: seq<I.Offer>, sites: map<string, string>, client: string)
      returns (e: Option<I.CreateError>)
      ensures e == I.SiteError(offers, sites, client)
    {
      for i := 0 to |offers|
        invariant I.SiteError(offers, sites, client) == I.SiteError(offers[i..], sites, client)
      {
        var siteId := offers[i].siteId;
        if siteId !in sites {
          return Some(I.SiteNotFound(siteId));
        }
        if sites[siteId] != client {
          return Some(I.SiteOfOtherClient(siteId));
        }
        assert offers[i..][1..] == offers[i + 1..];
      }
      return None;
    }

    /** The first role that is missing. */
    method CheckRoles(offers: seq<I.Offer>, roles: set<string>) returns (e: Option<I.CreateError>)
      ensures e == I.RoleError(offers, roles)
    {
      for i := 0 to |offers|
        invariant I.RoleError(offers, roles) == I.RoleError(offers[i..], roles)
      {
        if offers[i].roleId !in roles {
          return Some(I.RoleNotFound(offers[i].roleId));
        }
        assert offers[i..][1..] == offers[i + 1..];
      }
      return None;
    }

    method BuildRows(client: string, offers: seq<I.Offer>, groupIds: map<string, string>, gen: I.Generated,
                     expiresOn: int) returns (createData: seq<I.Invitation>)
      requires |gen.codes| == |offers|
      requires forall i :: 0 <= i < |offers| ==>
        (if offers[i].email in groupIds then Some(groupIds[offers[i].email]) else None)
        == I.GroupFor(offers, gen, offers[i].email)
      ensures createData == I.NewRows(client, offers, gen, expiresOn)
    {
      createData := [];
      for i := 0 to |offers|
        invariant createData == I.NewRows(client, offers, gen, expiresOn)[..i]
      {
        var groupId := if offers[i].email in groupIds then Some(groupIds[offers[i].email]) else None;
        createData := createData + [I.Invitation(gen.codes[i], client, offers[i], groupId, I.PENDING, expiresOn)];
      }
    }

    method CreateBulk(client: string, offers: seq<I.Offer>, sites: map<string, string>, roles: set<string>,
                      gen: I.Generated, expiresOn: int) returns (r: Result<nat, I.CreateError>)
      requires I.Fresh(invitations, offers, gen)
      modifies this`invitations
      ensures match I.CreateCheck(old(invitations), client, offers, sites, roles)
        case Some(e) => r == Err(e) && invitations == old(invitations)
        case None => r == Ok(|offers|) && invitations == old(invitations) + I.NewRows(client, offers, gen, expiresOn)
    {
      var siteError := CheckSites(offers, sites, client);
      if siteError.Some? {
        return Err(siteError.value);
      }
      var roleError := CheckRoles(offers, roles);
      if roleError.Some? {
        return Err(roleError.value);
      }
      var t := invitations;
      var conflicts := Filter(offers, o => I.IsPending(t, client, o));
      if conflicts != [] {
        return Err(I.AlreadyPending(conflicts));
      }
      var groupIds := AssignGroups(offers, gen);
      var createData := BuildRows(client, offers, groupIds, gen, expiresOn);
      invitations := invitations + createData;
      r := Ok(|offers|);
    }

    /** One upsert per accepted invitation, in turn; only the clicked one is a candidate for primary. */
    method UpsertAccess(person: string, order: seq<nat>, clickedIndex: nat, first: Option<A.RowKey>, now: int)
      returns (accessRecords: seq<A.RowKey>)
      requires forall i :: 0 <= i < |order| ==> order[i] < |invitations|
      modifies this`access
      ensures accessRecords == KeysOf(invitations, person, order)
      ensures access == A.AcceptRows(old(access), accessRecords, clickedIndex, first, now)
    {
      ghost var keys := KeysOf(invitations, person, order);
      ghost var writes := A.AcceptWrites(keys, clickedIndex, first);
      accessRecords := [];
      for i := 0 to |order|
        invariant accessRecords == keys[..i]
        invariant access == A.UpsertAll(old(access), writes[..i], now)
      {
        var key := KeyOf(person, invitations[order[i]]);
        var isPrimary := i == clickedIndex && (first.None? || A.SamePlace(first.value, key));
        assert writes[i] == A.Write(key, isPrimary);
        access := A.Upsert(access, key, isPrimary, now);
        accessRecords := accessRecords + [key];
        assert writes[..i + 1][..i] == writes[..i];
      }
      assert writes[..|order|] == writes && keys[..|order|] == keys;
    }

    /** Accept an invitation and its group: access rows are upserted in turn, then the rows marked. */
    method Accept(code: string, person: string, email: string, now: int, order: seq<nat>, first: Option<A.RowKey>)
      returns (r: Result<seq<A.RowKey>, I.AcceptError>)
      requires AcceptReads(invitations, access, code, person, email, now, order, first)
      modifies this
      ensures invitations == I.AcceptTable(old(invitations), code, email, now)
      ensures access == AcceptAccess(old(invitations), old(access), code, person, email, now, order, first)
      ensures match I.AcceptCheck(old(invitations), code, email, now)
        case Err(e) => r == Err(e)
        case Ok(_) => r == Ok(KeysOf(old(invitations), person, order))
    {
      var found := I.FindCode(invitations, code);
      if found.None? {
        return Err(I.NotFound);
      }
      var invitation := invitations[found.value];
      if invitation.status == I.REVOKED || invitation.status == I.EXPIRED {
        return Err(I.Gone);
      }
      if invitation.status == I.ACCEPTED {
        return Err(I.AlreadyAccepted);
      }
      if now > invitation.expiresOn {
        return Err(I.Gone);
      }
      if I.Lower(email) != I.Lower(invitation.offer.email) {
        return Err(I.OtherEmail);
      }
      var accessRecords := UpsertAccess(person, order, ClickedIndex(invitations, order, code), first, now);
      invitations := I.SetStatus(invitations, I.Together(invitations, found.value), I.ACCEPTED);
      r := Ok(accessRecords);
    }

    method Revoke(id: nat, visible: set<string>) returns (r: Result<set<nat>, I.RevokeError>)
      modifies this`invitations
      ensures invitations == I.RevokeTable(old(invitations), id, visible)
      ensures match I.RevokeCheck(old(invitations), id, visible)
        case Some(e) => r == Err(e)
        case None => r == Ok(I.RevokedIds(old(invitations), id, visible))
    {
      if id >= |invitations| || invitations[id].clientId !in visible {
        return Err(I.NoSuchInvitation);
      }
      if invitations[id].status == I.ACCEPTED {
        return Err(I.IsAccepted);
      }
      var ids := I.RevokedIds(invitations, id, visible);
      invitations := I.SetStatus(invitations, ids, I.REVOKED);
      r := Ok(ids);
    }

    /** Revoke, then create; a creation that fails leaves the old rows revoked. */
    method Renew(id: nat, visible: set<string>, order: seq<nat>, sites: map<string, string>, roles: set<string>,
                 gen: I.Generated, expiresOn: int) returns (r: Result<nat, I.RenewError>)
      requires I.Allowed(invitations, I.Renew(id, visible, order, sites, roles, gen, expiresOn))
      modifies this`invitations
      ensures invitations == I.RenewTable(old(invitations), id, visible, order, sites, roles, gen, expiresOn)
      ensures match I.RenewCheck(old(invitations), id, visible)
        case Some(e) => r == Err(e)
        case None =>
          match I.RenewCreation(old(invitations), id, order, sites, roles)
          case Some(e) => r == Err(I.CreateFailed(e))
          case None => r == Ok(|order|)
    {
      if id >= |invitations| || invitations[id].clientId !in visible {
        return Err(I.NoSuchRow);
      }
      var original := invitations[id];
      if original.status != I.PENDING {
        return Err(I.NotRenewable(original.status));
      }
      var toReplace := I.Together(invitations, id);
      if |toReplace| == 0 {
        return Err(I.NothingToRenew);
      }
      var offers := I.OffersOf(invitations, order);
      I.FreshAfterStatusChange(invitations, toReplace, I.REVOKED, offers, gen);
      invitations := I.SetStatus(invitations, toReplace, I.REVOKED);
      var created := CreateBulk(original.clientId, offers, sites, roles, gen, expiresOn);
      match created
      case Ok(n) => r := Ok(n);
      case Err(e) => r := Err(I.CreateFailed(e));
    }

    method ExpireStale(visible: set<string>, now: int) returns (count: nat)
      modifies this`invitations
      ensures invitations == I.SetStatus(old(invitations), I.Stale(old(invitations), visible, now), I.REVOKED)
      ensures count == |I.Stale(old(invitations), visible, now)|
      ensures I.Stale(invitations, visible, now) == {}
      ensures forall code, email, later :: now <= later ==>
        I.AcceptCheck(invitations, code, email, later) == I.AcceptCheck(old(invitations), code, email, later)
    {
      var stale := I.Stale(invitations, visible, now);
      invitations := I.SetStatus(invitations, stale, I.REVOKED);
      count := |stale|;
      forall code, email, later | now <= later
        ensures I.AcceptCheck(invitations, code, email, later) == I.AcceptCheck(old(invitations), code, email, later)
      {
        I.ExpireIsInvisible(old(invitations), visible, now, code, email, later);
      }
    }

    // ---- Access rows ----

    method UsersAddRole(key: A.RowKey, first: Option<A.RowKey>, now: int)
      requires A.Allowed(access, A.UsersAddRole(key, first, now))
      modifies this`access
      ensures access == A.Apply(old(access), A.UsersAddRole(key, first, now))
    {
      var isPrimary := first.None? || A.SamePlace(first.value, key);
      access := A.Upsert(access, key, isPrimary, now);
    }

    /** Delete a row; if it was primary and no primary row is seen any more, promote the oldest seen. */
    method DeleteAndPromote(key: A.RowKey, sight: A.Sight, oldest: Option<A.RowKey>)
      requires key in access
      modifies this`access
      ensures access == A.RemoveRow(old(access), key, sight, oldest)
    {
      var wasPrimary := access[key].isPrimary;
      access := access - {key};
      if wasPrimary {
        var remainingPrimary := A.HasPrimary(access, key.person, sight);
        if !remainingPrimary {
          if oldest.Some? {
            access := A.Promote(access, oldest.value);
          }
        }
      }
    }

    method UsersRemoveRole(key: A.RowKey, oldest: Option<A.RowKey>) returns (found: bool)
      requires key in access ==> A.Allowed(access, A.UsersRemoveRole(key, oldest))
      modifies this`access
      ensures found == (key in old(access))
      ensures access == if found then A.Apply(old(access), A.UsersRemoveRole(key, oldest)) else old(access)
    {
      found := key in access;
      if found {
        DeleteAndPromote(key, A.All, oldest);
      }
    }

    /** The person is looked up first; then the row is created, which the table refuses if it exists. */
    method MembersAddRole(key: A.RowKey, sight: A.Sight, now: int) returns (e: Option<MemberError>)
      requires A.Sees(sight, key)
      modifies this`access
      ensures e == if !A.SeesPerson(old(access), sight, key.person) then Some(PersonNotFound)
                   else if key in old(access) then Some(HasRoleAlready) else None
      ensures access == if e.None? then A.Apply(old(access), A.MembersAddRole(key, sight, now)) else old(access)
    {
      if !A.SeesPerson(access, sight, key.person) {
        return Some(PersonNotFound);
      }
      var a := access;
      var primaryHere := exists k :: k in a && a[k].isPrimary && k.person == key.person && A.SamePlace(k, key);
      if key in access {
        return Some(HasRoleAlready);
      }
      access := access[key := A.Row(primaryHere, now)];
      e := None;
    }

    method MembersRemoveRole(key: A.RowKey, sight: A.Sight, oldest: Option<A.RowKey>) returns (e: Option<MemberError>)
      requires A.Sees(sight, key) && (key in access ==> A.Oldest(access - {key}, key.person, sight, oldest))
      modifies this`access
      ensures e == if !A.SeesPerson(old(access), sight, key.person) then Some(PersonNotFound)
                   else if key !in old(access) then Some(HasNotTheRole)
                   else if |A.MemberRows(old(access), key.person, key.client)| <= 1 then Some(LastRole) else None
      ensures access == if e.None? then A.Apply(old(access), A.MembersRemoveRole(key, sight, oldest)) else old(access)
    {
      if !A.SeesPerson(access, sight, key.person) {
        return Some(PersonNotFound);
      }
      if key !in access {
        return Some(HasNotTheRole);
      }
      var accessCount := |A.MemberRows(access, key.person, key.client)|;
      if accessCount <= 1 {
        return Some(LastRole);
      }
      DeleteAndPromote(key, sight, oldest);
      e := None;
    }

    method MembersRemove(person: string, client: string, sight: A.Sight, oldest: Option<A.RowKey>)
      returns (e: Option<MemberError>)
      requires sight.Only? ==> sight.client == client
      requires A.Oldest(A.WithoutMember(access, person, client), person, sight, oldest)
      modifies this`access
      ensures e == if A.SeesPerson(old(access), sight, person) then None else Some(PersonNotFound)
      ensures access ==
        if e.None? then A.Apply(old(access), A.MembersRemove(person, client, sight, oldest)) else old(access)
    {
      if !A.SeesPerson(access, sight, person) {
        return Some(PersonNotFound);
      }
      e := None;
      var hadPrimaryAccess := A.HasPrimary(access, person, sight);
      access := A.WithoutMember(access, person, client);
      if hadPrimaryAccess {
        if oldest.Some? {
          access := A.Promote(access, oldest.value);
        }
      }
    }

    method SyncUser(person: string, client: string, site: string, roles: seq<string>, now: int) returns (synced: bool)
      modifies this`access
      ensures synced == (roles != [])
      ensures access ==
        if synced then A.Apply(old(access), A.SyncUser(person, client, site, roles, now)) else old(access)
    {
      if roles == [] {
        return false;
      }
      var isFirstAccess := !A.Holds(access, person);
      ghost var keys := A.RoleKeys(person, client, site, roles);
      for i := 0 to |roles|
        invariant access == A.CreateMissing(old(access), keys[..i], isFirstAccess, now)
      {
        var key := A.RowKey(person, client, site, roles[i]);
        if key !in access {
          access := access[key := A.Row(isFirstAccess, now)];
        }
        assert keys[..i + 1][..i] == keys[..i];
      }
      assert keys[..|roles|] == keys;
      synced := true;
    }
  }

  // ---- Runs over both tables ----

  datatype State = State(invitations: I.Table, access: A.Table)

  datatype Step =
    | Invite(op: I.Op)
    | Join(code: string, person: string, email: string, now: int, order: seq<nat>, first: Option<A.RowKey>)
    | Change(change: A.Op)

  ghost predicate Allowed(s: State, step: Step) {
    match step
    case Invite(op) => !op.Accept? && I.Allowed(s.invitations, op)
    case Join(code, person, email, now, order, first) =>
      AcceptReads(s.invitations, s.access, code, person, email, now, order, first)
    case Change(op) => !op.Accept? && A.Allowed(s.access, op)
  }

  function Apply(s: State, step: Step): State
    requires Allowed(s, step)
  {
    match step
    case Invite(op) => s.(invitations := I.Apply(s.invitations, op))
    case Join(code, person, email, now, order, first) =>
      State(I.AcceptTable(s.invitations, code, email, now),
            AcceptAccess(s.invitations, s.access, code, person, email, now, order, first))
    case Change(op) => s.(access := A.Apply(s.access, op))
  }

  /** The access-row operation that a successful accept performs. */
  function RowsOp(s: State, step: Step): A.Op
    requires step.Join? && forall i :: 0 <= i < |step.order| ==> step.order[i] < |s.invitations|
  {
    A.Accept(KeysOf(s.invitations, step.person, step.order), ClickedIndex(s.invitations, step.order, step.code),
             step.first, step.now)
  }

  lemma KeysOfGroupAreDistinct(t: I.Table, person: string, order: seq<nat>, id: nat)
    requires I.Good(t) && id < |t| && t[id].status == I.PENDING && I.Lists(order, I.Together(t, id))
    ensures forall i :: 0 <= i < |order| ==> order[i] < |t|
    ensures Distinct(KeysOf(t, person, order))
  {
    I.RenewedOffersAreDistinct(t, id, order);
    var keys, offers := KeysOf(t, person, order), I.OffersOf(t, order);
    forall i, j | 0 <= i < j < |keys| ensures keys[i] != keys[j] {
      assert offers[i] != offers[j] && offers[i].email == offers[j].email;
    }
  }

  /** A group's rows are distinct and include the clicked one, so its accept is a proper row operation. */
  lemma JoinIsRowsOp(s: State, step: Step)
    requires I.Good(s.invitations) && step.Join? && Allowed(s, step)
    requires I.AcceptCheck(s.invitations, step.code, step.email, step.now).Ok?
    ensures A.Allowed(s.access, RowsOp(s, step))
    ensures Apply(s, step).access == A.Apply(s.access, RowsOp(s, step))
    ensures s.invitations[step.order[ClickedIndex(s.invitations, step.order, step.code)]].code == step.code
  {
    var t := s.invitations;
    var id := I.AcceptCheck(t, step.code, step.email, step.now).value;
    KeysOfGroupAreDistinct(t, step.person, step.order, id);
    assert id in I.Together(t, id) && id in step.order;
    var at :| 0 <= at < |step.order| && step.order[at] == id;
    assert t[step.order[at]].code == step.code;
  }

  ghost predicate Legal(steps: seq<Step>)
    decreases |steps|, 0
  {
    steps == [] || (Legal(steps[..|steps| - 1]) && Allowed(After(steps[..|steps| - 1]), steps[|steps| - 1]))
  }

  ghost function After(steps: seq<Step>): State
    requires Legal(steps)
    decreases |steps|, 1
  {
    if steps == [] then State([], map[]) else Apply(After(steps[..|steps| - 1]), steps[|steps| - 1])
  }

  /** Every run of all services together keeps both tables' invariants. */
  lemma {:induction false} RunsKeepBothInvariants(steps: seq<Step>)
    requires Legal(steps)
    requires forall st :: st in steps && st.Change? && st.change.MembersRemove? ==> st.change.sight.Only?
    ensures I.Good(After(steps).invitations) && A.SinglePlace(After(steps).access)
  {
    if steps != [] {
      RunsKeepBothInvariants(steps[..|steps| - 1]);
      var s, step := After(steps[..|steps| - 1]), steps[|steps| - 1];
      match step
      case Invite(op) => I.StepKeepsGood(s.invitations, op);
      case Change(op) => A.StepKeepsSinglePlace(s.access, op);
      case Join(code, person, email, now, order, first) =>
        I.StepKeepsGood(s.invitations, I.Accept(code, email, now));
        if I.AcceptCheck(s.invitations, code, email, now).Ok? {
          JoinIsRowsOp(s, step);
          A.StepKeepsSinglePlace(s.access, RowsOp(s, step));
        }
    }
  }

  /** An accept of rows listed in `order` upserts the row of each. */
  lemma AcceptRowsOf(s: State, step: Step, i: nat)
    requires step.Join? && (forall n :: 0 <= n < |step.order| ==> step.order[n] < |s.invitations|) && i in step.order
    ensures var op := RowsOp(s, step);
      KeyOf(step.person, s.invitations[i]) in A.AcceptRows(s.access, op.keys, op.clicked, op.first, op.now)
  {
    var op := RowsOp(s, step);
    var at :| 0 <= at < |step.order| && step.order[at] == i;
    var ws := A.AcceptWrites(op.keys, op.clicked, op.first);
    assert ws[at].key == KeyOf(step.person, s.invitations[i]);
    A.UpsertAllAt(s.access, ws, op.now, KeyOf(step.person, s.invitations[i]));
  }

  /** The clicked invitation and its group are accepted, and the person has a row for each. */
  ghost predicate Delivered(t: I.Table, clicked: nat, person: string, s: State)
    requires |t| == |s.invitations|
  {
    forall i: nat :: i < |t| && (i == clicked || I.SameGroup(t, clicked, i)) ==>
      s.invitations[i].status == I.ACCEPTED && KeyOf(person, t[i]) in s.access
  }

  lemma JoinDelivers(s: State, step: Step)
    requires I.GroupsUniform(s.invitations) && step.Join? && Allowed(s, step)
    requires I.AcceptCheck(s.invitations, step.code, step.email, step.now).Ok?
    ensures |Apply(s, step).invitations| == |s.invitations|
    ensures Delivered(s.invitations, I.AcceptCheck(s.invitations, step.code, step.email, step.now).value, step.person,
                      Apply(s, step))
  {
    var t := s.invitations;
    var clicked := I.AcceptCheck(t, step.code, step.email, step.now).value;
    forall i: nat | i < |t| && (i == clicked || I.SameGroup(t, clicked, i))
      ensures Apply(s, step).invitations[i].status == I.ACCEPTED && KeyOf(step.person, t[i]) in Apply(s, step).access
    {
      assert i in I.Together(t, clicked);
      AcceptRowsOf(s, step, i);
    }
  }

  /** In every run an accept gives the person a row for every assignment of the group and leaves none pending. */
  lemma JoinDeliversTheOffer(steps: seq<Step>, step: Step)
    requires Legal(steps) && step.Join? && Allowed(After(steps), step)
    requires forall st :: st in steps && st.Change? && st.change.MembersRemove? ==> st.change.sight.Only?
    requires I.AcceptCheck(After(steps).invitations, step.code, step.email, step.now).Ok?
    ensures var t, s' := After(steps).invitations, Apply(After(steps), step);
      |s'.invitations| == |t| && Delivered(t, I.AcceptCheck(t, step.code, step.email, step.now).value, step.person, s')
  {
    RunsKeepBothInvariants(steps);
    JoinDelivers(After(steps), step);
  }

  // ---- Failing inputs: runs that leave a person with rows and no primary one ----

  lemma Extend(steps: seq<Step>, step: Step)
    requires Legal(steps) && Allowed(After(steps), step)
    ensures Legal(steps + [step]) && After(steps + [step]) == Apply(After(steps), step)
  {
    assert (steps + [step])[..|steps|] == steps;
  }

  ghost predicate Stranded(s: State, person: string) {
    A.Holds(s.access, person) && !A.HasPrimary(s.access, person, A.All)
  }

  /** The first role of a person, added as a member's by a caller who sees beyond the client, is not primary. */
  lemma MembersAddRoleStrands(key: A.RowKey, now: int)
    ensures var steps := [Change(A.MembersAddRole(key, A.All, now))];
      Legal(steps) && Stranded(After(steps), key.person)
  {
    var step := Change(A.MembersAddRole(key, A.All, now));
    Extend([], step);
    assert [] + [step] == [step];
    var s := After([step]);
    assert s.access == map[key := A.Row(false, now)];
    assert key in s.access && key.person == key.person;
  }

  /** Two roles added by a system administrator, the first primary. */
  lemma TwoRoles(a: A.RowKey, b: A.RowKey, steps: seq<Step>)
    requires a.person == b.person && !A.SamePlace(a, b)
    requires steps == [Change(A.UsersAddRole(a, None, 1)), Change(A.UsersAddRole(b, Some(a), 2))]
    ensures Legal(steps) && After(steps) == State([], map[a := A.Row(true, 1), b := A.Row(false, 2)])
  {
    Extend([], steps[0]);
    assert [] + [steps[0]] == [steps[0]];
    var s := After([steps[0]]);
    assert s == State([], map[a := A.Row(true, 1)]);
    assert a in s.access && s.access[a].isPrimary && A.IsPrimary(s.access, a);
    Extend([steps[0]], steps[1]);
    assert [steps[0]] + [steps[1]] == steps;
  }

  /** A member removed from the client of the primary row, while a row at another client remains. */
  lemma MembersRemoveStrands(a: A.RowKey, b: A.RowKey)
    requires a.person == b.person && a.client != b.client
    ensures var steps := [Change(A.UsersAddRole(a, None, 1)), Change(A.UsersAddRole(b, Some(a), 2)),
                          Change(A.MembersRemove(a.person, a.client, A.Only(a.client), None))];
      Legal(steps) && Stranded(After(steps), a.person)
  {
    var added := [Change(A.UsersAddRole(a, None, 1)), Change(A.UsersAddRole(b, Some(a), 2))];
    var remove := Change(A.MembersRemove(a.person, a.client, A.Only(a.client), None));
    TwoRoles(a, b, added);
    Extend(added, remove);
    assert added + [remove] == [added[0], added[1], remove];
    var s := After(added + [remove]);
    assert s.access == map[b := A.Row(false, 2)];
    assert b in s.access;
  }

  /** One request with two offers at a client, for which all sites and roles are valid. */
  function InvitePair(client: string, a: I.Offer, b: I.Offer, x: string, y: string, g: string, expiresOn: int): I.Op {
    I.CreateBulk(client, [a, b], map[a.siteId := client, b.siteId := client], {a.roleId, b.roleId},
                 I.Generated([x, y], map[a.email := g]), expiresOn)
  }

  function PairRows(
    client: string, a: I.Offer, b: I.Offer, x: string, y: string, g: string, expiresOn: int): I.Table
  {
    [I.Invitation(x, client, a, Some(g), I.PENDING, expiresOn),
     I.Invitation(y, client, b, Some(g), I.PENDING, expiresOn)]
  }

  /** Two offers to one email make a group of two pending rows. */
  lemma InviteTwice(client: string, a: I.Offer, b: I.Offer, x: string, y: string, g: string, expiresOn: int)
    requires a.email == b.email && a != b && x != y
    ensures I.Allowed([], InvitePair(client, a, b, x, y, g, expiresOn))
    ensures I.Apply([], InvitePair(client, a, b, x, y, g, expiresOn)) == PairRows(client, a, b, x, y, g, expiresOn)
  {
    I.CreateSucceeds([], client, [a, b], map[a.siteId := client, b.siteId := client], {a.roleId, b.roleId});
    I.CountEmailAll([a, b], a.email);
  }

  /** A person with one primary row is invited to it again, together with another site. */
  lemma HeldAndInvited(held: A.RowKey, a: I.Offer, b: I.Offer, x: string, y: string, g: string, now: int)
    requires a.email == b.email && a != b && x != y
    ensures var steps := [Change(A.UsersAddRole(held, None, now)), Invite(InvitePair(held.client, a, b, x, y, g, now))];
      && Legal(steps)
      && After(steps) == State(PairRows(held.client, a, b, x, y, g, now), map[held := A.Row(true, now)])
  {
    var add, invite := Change(A.UsersAddRole(held, None, now)), Invite(InvitePair(held.client, a, b, x, y, g, now));
    Extend([], add);
    assert [] + [add] == [add] && After([add]) == State([], map[held := A.Row(true, now)]);
    InviteTwice(held.client, a, b, x, y, g, now);
    Extend([add], invite);
    assert [add] + [invite] == [add, invite];
  }

  /**
   A group that offers the held primary row again beside another site, accepted by a click on the other
   site: both rows end up not primary.
   */
  lemma AcceptStrands(
    person: string, client: string, a: I.Offer, b: I.Offer, x: string, y: string, g: string, now: int)
    requires a.email == b.email && a.siteId != b.siteId && x != y
    ensures var held := A.RowKey(person, client, b.siteId, b.roleId);
      var steps := [Change(A.UsersAddRole(held, None, now)), Invite(InvitePair(client, a, b, x, y, g, now)),
                    Join(x, person, a.email, now, [0, 1], Some(held))];
      Legal(steps) && Stranded(After(steps), person)
  {
    var held := A.RowKey(person, client, b.siteId, b.roleId);
    var before := [Change(A.UsersAddRole(held, None, now)), Invite(InvitePair(client, a, b, x, y, g, now))];
    var join := Join(x, person, a.email, now, [0, 1], Some(held));
    HeldAndInvited(held, a, b, x, y, g, now);
    JoinStrands(After(before), join, held);
    Extend(before, join);
    assert before + [join] == [before[0], before[1], join];
  }

  /** Two pending rows of a group, the second of them for the one row held, which is primary; the first is clicked. */
  ghost predicate ClickBesideHeld(s: State, join: Step, held: A.RowKey) {
    var t := s.invitations;
    && |t| == 2 && t[0].groupId.Some? && t[0].groupId == t[1].groupId
    && t[0].code != t[1].code && t[0].offer.siteId != t[1].offer.siteId
    && t[0].status == I.PENDING && t[1].status == I.PENDING
    && join.Join? && join.code == t[0].code && join.email == t[0].offer.email && join.now <= t[0].expiresOn
    && join.order == [0, 1] && join.first == Some(held) && held == KeyOf(join.person, t[1])
    && s.access.Keys == {held} && s.access[held].isPrimary
  }

  lemma ClickIsAllowed(s: State, join: Step, held: A.RowKey)
    requires ClickBesideHeld(s, join, held)
    ensures Allowed(s, join) && I.AcceptCheck(s.invitations, join.code, join.email, join.now) == Ok(0)
    ensures ClickedIndex(s.invitations, join.order, join.code) == 0
  {
    var t := s.invitations;
    assert t[..1] == [t[0]] && I.FindCode(t, join.code) == Some(0);
    assert I.Together(t, 0) == {0, 1};
    assert A.IsPrimary(s.access, held);
    assert t[join.order[0]].code == join.code;
  }

  /** Neither of two distinct rows is written as primary. */
  lemma WritesLeaveNoPrimary(a: A.Table, keys: seq<A.RowKey>, held: A.RowKey, now: int, k: A.RowKey)
    requires |keys| == 2 && keys[1] == held && !A.SamePlace(keys[0], held) && a.Keys == {held}
    ensures var r := A.AcceptRows(a, keys, 0, Some(held), now); held in r && (k in r ==> !r[k].isPrimary)
  {
    var ws := A.AcceptWrites(keys, 0, Some(held));
    A.UpsertAllAt(a, ws, now, k);
    A.UpsertAllAt(a, ws, now, held);
    A.UpsertAllFlag(a, ws, now, 0);
    A.UpsertAllFlag(a, ws, now, 1);
  }

  lemma JoinStrands(s: State, join: Step, held: A.RowKey)
    requires ClickBesideHeld(s, join, held)
    ensures Allowed(s, join) && Stranded(Apply(s, join), join.person)
  {
    ClickIsAllowed(s, join, held);
    var keys := KeysOf(s.invitations, join.person, join.order);
    var r := Apply(s, join).access;
    assert r == A.AcceptRows(s.access, keys, 0, Some(held), join.now);
    forall k ensures held in r && (k in r ==> !r[k].isPrimary) {
      WritesLeaveNoPrimary(s.access, keys, held, join.now, k);
    }
    assert held in r && held.person == join.person;
  }
}
