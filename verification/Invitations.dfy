/**
 The invitation table and its five operations. Rows are only appended and updated, so a row's id
 is its position. Generated codes and group ids are parameters that must be fresh; a listing
 ordered by creation time, which group members share, may come in any order. `visible` is the set
 of clients whose rows the caller's queries see.
 */
module Invitations {
  import opened Prelude

  datatype Status = PENDING | ACCEPTED | EXPIRED | REVOKED

  datatype Offer = Offer(email: string, siteId: string, roleId: string)

  datatype Invitation = Invitation(
    code: string, clientId: string, offer: Offer, groupId: Option<string>, status: Status, expiresOn: int)

  type Table = seq<Invitation>

  // ---- The request schema ----

  function LowerChar(c: char): char { if 'A' <= c <= 'Z' then c - 'A' + 'a' else c }

  function Lower(s: string): (r: string)
    ensures |r| == |s|
  {
    seq(|s|, i requires 0 <= i < |s| => LowerChar(s[i]))
  }

  /** Two letters are the same up to case. */
  predicate SameLetter(a: char, b: char) {
    a == b || ('A' <= a <= 'Z' && b as int == a as int + 32) || ('A' <= b <= 'Z' && a as int == b as int + 32)
  }

  lemma CaseIsIgnored(a: string, b: string)
    ensures Lower(a) == Lower(b) <==> |a| == |b| && forall i :: 0 <= i < |a| ==> SameLetter(a[i], b[i])
  {
    if Lower(a) == Lower(b) {
      forall i | 0 <= i < |a| ensures SameLetter(a[i], b[i]) {
        assert Lower(a)[i] == Lower(b)[i];
      }
    }
  }

  datatype Assignment = Assignment(siteId: string, roleId: string)

  /** One entry of the request: a single offer, or one email with several assignments. */
  datatype Entry = Flat(offer: Offer) | Nested(email: string, assignments: seq<Assignment>)

  function OffersOfEntry(e: Entry): seq<Offer> {
    match e
    case Flat(o) => [o.(email := Lower(o.email))]
    case Nested(email, as_) =>
      seq(|as_|, i requires 0 <= i < |as_| => Offer(Lower(email), as_[i].siteId, as_[i].roleId))
  }

  function Flatten(entries: seq<Entry>): seq<Offer> {
    if entries == [] then [] else OffersOfEntry(entries[0]) + Flatten(entries[1..])
  }

  function DuplicateKey(o: Offer): string { o.email + ":" + o.siteId + ":" + o.roleId }

  function DuplicateKeys(offers: seq<Offer>): (ks: seq<string>)
    ensures |ks| == |offers|
    ensures forall i :: 0 <= i < |ks| ==> ks[i] == DuplicateKey(offers[i])
  {
    seq(|offers|, i requires 0 <= i < |offers| => DuplicateKey(offers[i]))
  }

  /** The offers of an accepted request. */
  function Parse(entries: seq<Entry>): Option<seq<Offer>> {
    var offers := Flatten(entries);
    if 1 <= |entries| <= 100
       && (forall e :: e in entries && e.Nested? ==> 1 <= |e.assignments| <= 100)
       && Distinct(DuplicateKeys(offers)) && |offers| <= 500
    then Some(offers) else None
  }

  /** An accepted request is nonempty and names every tuple once. */
  lemma ParsedOffersAreDistinct(entries: seq<Entry>)
    requires Parse(entries).Some?
    ensures Parse(entries).value != [] && Distinct(Parse(entries).value)
  {
  }

  lemma OffersOfEntryAre(e: Entry, o: Offer)
    ensures o in OffersOfEntry(e) <==> Offers(e, o)
  {
    if e.Nested? && Offers(e, o) {
      var i :| 0 <= i < |e.assignments| && e.assignments[i] == Assignment(o.siteId, o.roleId);
      assert OffersOfEntry(e)[i] == o;
    }
  }

  /** Which offers a request makes: its flat entries, and every assignment of its nested ones, emails lowered. */
  lemma {:induction false} FlattenHas(entries: seq<Entry>, o: Offer)
    ensures o in Flatten(entries) <==> exists e :: e in entries && Offers(e, o)
  {
    if entries != [] {
      FlattenHas(entries[1..], o);
      OffersOfEntryAre(entries[0], o);
      assert forall e :: e in entries <==> e == entries[0] || e in entries[1..];
    }
  }

  predicate Offers(e: Entry, o: Offer) {
    match e
    case Flat(f) => o == Offer(Lower(f.email), f.siteId, f.roleId)
    case Nested(email, assignments) =>
      o.email == Lower(email) && Assignment(o.siteId, o.roleId) in assignments
  }

  function TotalSize(entries: seq<Entry>): nat {
    if entries == [] then 0
    else (if entries[0].Nested? then |entries[0].assignments| else 1) + TotalSize(entries[1..])
  }

  lemma {:induction false} FlattenLength(entries: seq<Entry>)
    ensures |Flatten(entries)| == TotalSize(entries)
  {
    if entries != [] {
      FlattenLength(entries[1..]);
    }
  }

  lemma DuplicateKeysAreTuples(a: Offer, b: Offer)
    requires ':' !in a.email && ':' !in a.siteId && ':' !in b.email && ':' !in b.siteId
    ensures DuplicateKey(a) == DuplicateKey(b) <==> a == b
  {
    if DuplicateKey(a) == DuplicateKey(b) {
      assert DuplicateKey(a) == a.email + [':'] + (a.siteId + [':'] + a.roleId);
      assert DuplicateKey(b) == b.email + [':'] + (b.siteId + [':'] + b.roleId);
      SplitAt(':', a.email, a.siteId + [':'] + a.roleId, b.email, b.siteId + [':'] + b.roleId);
      SplitAt(':', a.siteId, a.roleId, b.siteId, b.roleId);
    }
  }

  lemma DistinctKeysIff(offers: seq<Offer>)
    requires forall i :: 0 <= i < |offers| ==> ':' !in offers[i].email && ':' !in offers[i].siteId
    ensures Distinct(DuplicateKeys(offers)) <==> Distinct(offers)
  {
    var keys := DuplicateKeys(offers);
    forall i, j | 0 <= i < j < |offers| ensures keys[i] == keys[j] <==> offers[i] == offers[j] {
      DuplicateKeysAreTuples(offers[i], offers[j]);
    }
  }

  /** A request is accepted exactly within the limits and if no tuple is named twice, and makes all its offers. */
  lemma ParseIff(entries: seq<Entry>)
    requires var offers := Flatten(entries);
      forall i :: 0 <= i < |offers| ==> ':' !in offers[i].email && ':' !in offers[i].siteId
    ensures Parse(entries).Some? <==>
      && 1 <= |entries| <= 100 && (forall e :: e in entries && e.Nested? ==> 1 <= |e.assignments| <= 100)
      && TotalSize(entries) <= 500 && Distinct(Flatten(entries))
    ensures Parse(entries).Some? ==> Parse(entries).value == Flatten(entries)
  {
    FlattenLength(entries);
    DistinctKeysIff(Flatten(entries));
  }

  // ---- createBulk ----

  datatype CreateError =
    | SiteNotFound(siteId: string)
    | SiteOfOtherClient(siteId: string)
    | RoleNotFound(roleId: string)
    | AlreadyPending(conflicts: seq<Offer>)

  /** `sites` maps each visible site to its client. */
  function SiteError(offers: seq<Offer>, sites: map<string, string>, client: string): Option<CreateError> {
    if offers == [] then None
    else if offers[0].siteId !in sites then Some(SiteNotFound(offers[0].siteId))
    else if sites[offers[0].siteId] != client then Some(SiteOfOtherClient(offers[0].siteId))
    else SiteError(offers[1..], sites, client)
  }

  function RoleError(offers: seq<Offer>, roles: set<string>): Option<CreateError> {
    if offers == [] then None
    else if offers[0].roleId !in roles then Some(RoleNotFound(offers[0].roleId))
    else RoleError(offers[1..], roles)
  }

  predicate IsPending(t: Table, client: string, o: Offer) {
    exists i :: 0 <= i < |t| && t[i].status == PENDING && t[i].clientId == client && t[i].offer == o
  }

  function CreateCheck(t: Table, client: string, offers: seq<Offer>, sites: map<string, string>, roles: set<string>)
    : Option<CreateError>
  {
    var siteError := SiteError(offers, sites, client);
    if siteError.Some? then siteError
    else
      var roleError := RoleError(offers, roles);
      if roleError.Some? then roleError
      else
        var conflicts := Filter(offers, o => IsPending(t, client, o));
        if conflicts != [] then Some(AlreadyPending(conflicts)) else None
  }

  /** The text by which createBulk recognises a tuple that is pending already. */
  function ConflictKey(o: Offer): string { o.email + "|" + o.siteId + "|" + o.roleId }

  /** Emails and ids have no bar, so comparing these texts compares the tuples, as IsPending does. */
  lemma ConflictKeysAreTuples(a: Offer, b: Offer)
    requires '|' !in a.email && '|' !in a.siteId && '|' !in b.email && '|' !in b.siteId
    ensures ConflictKey(a) == ConflictKey(b) <==> a == b
  {
    if ConflictKey(a) == ConflictKey(b) {
      assert ConflictKey(a) == a.email + "|" + (a.siteId + "|" + a.roleId);
      assert ConflictKey(b) == b.email + "|" + (b.siteId + "|" + b.roleId);
      SplitAtBar(a.email, a.siteId + "|" + a.roleId, b.email, b.siteId + "|" + b.roleId);
      SplitAtBar(a.siteId, a.roleId, b.siteId, b.roleId);
    }
  }

  function CountEmail(offers: seq<Offer>, email: string): nat {
    if offers == [] then 0
    else CountEmail(offers[..|offers| - 1], email) + if offers[|offers| - 1].email == email then 1 else 0
  }

  /** Generated codes, one per offer, and group ids, one per email that needs one. */
  datatype Generated = Generated(codes: seq<string>, groups: map<string, string>)

  ghost predicate Fresh(t: Table, offers: seq<Offer>, gen: Generated) {
    && |gen.codes| == |offers| && Distinct(gen.codes)
    && (forall i, j :: 0 <= i < |t| && 0 <= j < |gen.codes| ==> t[i].code != gen.codes[j])
    && (forall i :: 0 <= i < |offers| && CountEmail(offers, offers[i].email) > 1 ==> offers[i].email in gen.groups)
    && (forall a, b :: a in gen.groups && b in gen.groups && a != b ==> gen.groups[a] != gen.groups[b])
    && (forall i, e :: 0 <= i < |t| && e in gen.groups ==> t[i].groupId != Some(gen.groups[e]))
  }

  function GroupFor(offers: seq<Offer>, gen: Generated, email: string): Option<string> {
    if CountEmail(offers, email) > 1 && email in gen.groups then Some(gen.groups[email]) else None
  }

  function NewRows(client: string, offers: seq<Offer>, gen: Generated, expiresOn: int): (rows: seq<Invitation>)
    requires |gen.codes| == |offers|
    ensures |rows| == |offers|
    ensures forall i :: 0 <= i < |rows| ==>
      rows[i] == Invitation(gen.codes[i], client, offers[i], GroupFor(offers, gen, offers[i].email), PENDING, expiresOn)
  {
    seq(|offers|, i requires 0 <= i < |offers| =>
      Invitation(gen.codes[i], client, offers[i], GroupFor(offers, gen, offers[i].email), PENDING, expiresOn))
  }

  // ---- Status updates ----

  function SetStatus(t: Table, ids: set<nat>, status: Status): (r: Table)
    ensures |r| == |t|
    ensures forall i :: 0 <= i < |t| ==> r[i] == if i in ids then t[i].(status := status) else t[i]
  {
    seq(|t|, i requires 0 <= i < |t| => if i in ids then t[i].(status := status) else t[i])
  }

  function FindCode(t: Table, code: string): (r: Option<nat>)
    ensures r.Some? ==> r.value < |t| && t[r.value].code == code
    ensures r.None? ==> forall i :: 0 <= i < |t| ==> t[i].code != code
  {
    if t == [] then None
    else if t[|t| - 1].code == code then Some(|t| - 1)
    else FindCode(t[..|t| - 1], code)
  }

  function Members(t: Table, group: string): set<nat> {
    set i: nat | i < |t| && t[i].groupId == Some(group)
  }

  function PendingMembers(t: Table, group: string): set<nat> {
    set i: nat | i < |t| && t[i].groupId == Some(group) && t[i].status == PENDING
  }

  /** The pending rows handled together with row `id`: its group's, or the row alone. */
  function Together(t: Table, id: nat): set<nat>
    requires id < |t|
  {
    if t[id].groupId.Some? then PendingMembers(t, t[id].groupId.value) else {id}
  }

  // ---- accept, revoke, renew, expireStale ----

  datatype AcceptError = NotFound | Gone | AlreadyAccepted | OtherEmail

  function AcceptCheck(t: Table, code: string, email: string, now: int): Result<nat, AcceptError> {
    var found := FindCode(t, code);
    if found.None? then Err(NotFound)
    else
      var inv := t[found.value];
      if inv.status == REVOKED || inv.status == EXPIRED then Err(Gone)
      else if inv.status == ACCEPTED then Err(AlreadyAccepted)
      else if now > inv.expiresOn then Err(Gone)
      else if Lower(email) != Lower(inv.offer.email) then Err(OtherEmail)
      else Ok(found.value)
  }

  function AcceptTable(t: Table, code: string, email: string, now: int): Table {
    match AcceptCheck(t, code, email, now)
    case Ok(id) => SetStatus(t, Together(t, id), ACCEPTED)
    case Err(_) => t
  }

  datatype RevokeError = NoSuchInvitation | IsAccepted

  function RevokeCheck(t: Table, id: nat, visible: set<string>): Option<RevokeError> {
    if id >= |t| || t[id].clientId !in visible then Some(NoSuchInvitation)
    else if t[id].status == ACCEPTED then Some(IsAccepted)
    else None
  }

  function RevokedIds(t: Table, id: nat, visible: set<string>): set<nat>
    requires id < |t|
  {
    if t[id].groupId.Some?
    then set i: nat | i in PendingMembers(t, t[id].groupId.value) && t[i].clientId in visible
    else {id}
  }

  function RevokeTable(t: Table, id: nat, visible: set<string>): Table {
    if RevokeCheck(t, id, visible).Some? then t else SetStatus(t, RevokedIds(t, id, visible), REVOKED)
  }

  datatype RenewError = NoSuchRow | NotRenewable(status: Status) | NothingToRenew | CreateFailed(error: CreateError)

  function RenewCheck(t: Table, id: nat, visible: set<string>): Option<RenewError> {
    if id >= |t| || t[id].clientId !in visible then Some(NoSuchRow)
    else if t[id].status != PENDING then Some(NotRenewable(t[id].status))
    else if |Together(t, id)| == 0 then Some(NothingToRenew)
    else None
  }

  function OffersOf(t: Table, ids: seq<nat>): (offers: seq<Offer>)
    requires forall i :: 0 <= i < |ids| ==> ids[i] < |t|
    ensures |offers| == |ids|
    ensures forall i :: 0 <= i < |ids| ==> offers[i] == t[ids[i]].offer
  {
    seq(|ids|, i requires 0 <= i < |ids| => t[ids[i]].offer)
  }

  /** `order` lists the rows to replace, each once, in whatever order the query returns them. */
  ghost predicate Lists(order: seq<nat>, ids: set<nat>) {
    Distinct(order) && forall i :: i in order <==> i in ids
  }

  /** What creation after the revoke answers. */
  function RenewCreation(t: Table, id: nat, order: seq<nat>, sites: map<string, string>, roles: set<string>)
    : Option<CreateError>
    requires id < |t| && forall i :: 0 <= i < |order| ==> order[i] < |t|
  {
    CreateCheck(SetStatus(t, Together(t, id), REVOKED), t[id].clientId, OffersOf(t, order), sites, roles)
  }

  /** Old rows revoked, and a new row for each of them. */
  function Reissued(t: Table, id: nat, order: seq<nat>, gen: Generated, expiresOn: int): (r: Table)
    requires id < |t| && |gen.codes| == |order|
    requires forall i :: 0 <= i < |order| ==> order[i] < |t|
    ensures |r| == |t| + |order|
    ensures forall i :: 0 <= i < |t| ==> r[i] == if i in Together(t, id) then t[i].(status := REVOKED) else t[i]
    ensures forall k :: |t| <= k < |r| ==>
      var offer := t[order[k - |t|]].offer;
      r[k] == Invitation(gen.codes[k - |t|], t[id].clientId, offer,
                         GroupFor(OffersOf(t, order), gen, offer.email), PENDING, expiresOn)
  {
    SetStatus(t, Together(t, id), REVOKED) + NewRows(t[id].clientId, OffersOf(t, order), gen, expiresOn)
  }

  function RenewTable(t: Table, id: nat, visible: set<string>, order: seq<nat>,
                      sites: map<string, string>, roles: set<string>, gen: Generated, expiresOn: int): Table
    requires forall i :: 0 <= i < |order| ==> order[i] < |t|
    requires |gen.codes| == |order|
  {
    if RenewCheck(t, id, visible).Some? then t
    else
      if RenewCreation(t, id, order, sites, roles).Some? then SetStatus(t, Together(t, id), REVOKED)
      else Reissued(t, id, order, gen, expiresOn)
  }

  function Stale(t: Table, visible: set<string>, now: int): set<nat> {
    set i: nat | i < |t| && t[i].status == PENDING && t[i].expiresOn < now && t[i].clientId in visible
  }

  // ---- Operations ----

  datatype Op =
    | CreateBulk(client: string, offers: seq<Offer>, sites: map<string, string>, roles: set<string>,
                 gen: Generated, expiresOn: int)
    | Accept(code: string, email: string, now: int)
    | Revoke(id: nat, visible: set<string>)
    | Renew(id: nat, visible: set<string>, order: seq<nat>, sites: map<string, string>, roles: set<string>,
            gen: Generated, expiresOn: int)
    | ExpireStale(visible: set<string>, now: int)

  /** The request passed its schema, and query results and generated values are possible ones. */
  ghost predicate Allowed(t: Table, op: Op) {
    match op
    case CreateBulk(_, offers, _, _, gen, _) => Distinct(offers) && Fresh(t, offers, gen)
    case Renew(id, visible, order, _, _, gen, _) =>
      if RenewCheck(t, id, visible).Some? then order == [] && gen == Generated([], map[])
      else
        && Lists(order, Together(t, id)) && (forall i :: 0 <= i < |order| ==> order[i] < |t|)
        && Fresh(t, OffersOf(t, order), gen)
    case _ => true
  }

  function Apply(t: Table, op: Op): Table
    requires Allowed(t, op)
  {
    match op
    case CreateBulk(client, offers, sites, roles, gen, expiresOn) =>
      if CreateCheck(t, client, offers, sites, roles).Some? then t else t + NewRows(client, offers, gen, expiresOn)
    case Accept(code, email, now) => AcceptTable(t, code, email, now)
    case Revoke(id, visible) => RevokeTable(t, id, visible)
    case Renew(id, visible, order, sites, roles, gen, expiresOn) =>
      RenewTable(t, id, visible, order, sites, roles, gen, expiresOn)
    case ExpireStale(visible, now) => SetStatus(t, Stale(t, visible, now), REVOKED)
  }

  // ---- The invariant ----

  /** A (client, email, site, role) tuple has at most one pending invitation. */
  ghost predicate PendingUnique(t: Table) {
    forall i, j :: 0 <= i < j < |t| && t[i].status == PENDING && t[j].status == PENDING ==>
      !(t[i].clientId == t[j].clientId && t[i].offer == t[j].offer)
  }

  predicate SameGroup(t: Table, i: int, j: int) {
    0 <= i < |t| && 0 <= j < |t| && t[i].groupId.Some? && t[i].groupId == t[j].groupId
  }

  /** Members of a group share email, client, expiry and status. */
  ghost predicate GroupsUniform(t: Table) {
    forall i, j :: SameGroup(t, i, j) ==>
      && t[i].offer.email == t[j].offer.email && t[i].clientId == t[j].clientId
      && t[i].expiresOn == t[j].expiresOn && t[i].status == t[j].status
  }

  ghost predicate HasSibling(t: Table, i: int) { exists j :: j != i && SameGroup(t, i, j) }

  /** No group has a single member. */
  ghost predicate GroupsShared(t: Table) {
    forall i {:trigger HasSibling(t, i)} :: 0 <= i < |t| && t[i].groupId.Some? ==> HasSibling(t, i)
  }

  ghost predicate CodesUnique(t: Table) {
    forall i, j :: 0 <= i < j < |t| ==> t[i].code != t[j].code
  }

  ghost predicate Good(t: Table) { PendingUnique(t) && GroupsUniform(t) && GroupsShared(t) && CodesUnique(t) }

  /** With one member of a group a set of rows has all of them. */
  ghost predicate GroupClosed(t: Table, ids: set<nat>) {
    forall i, j: nat :: i in ids && SameGroup(t, i, j) ==> j in ids
  }

  lemma SetStatusKeepsGood(t: Table, ids: set<nat>, status: Status)
    requires Good(t) && status != PENDING && GroupClosed(t, ids)
    ensures Good(SetStatus(t, ids, status))
  {
    var r := SetStatus(t, ids, status);
    assert forall i, j :: SameGroup(r, i, j) ==> SameGroup(t, i, j) && SameGroup(t, j, i);
    SetStatusKeepsSiblings(t, ids, status);
  }

  lemma SetStatusKeepsSiblings(t: Table, ids: set<nat>, status: Status)
    requires GroupsShared(t)
    ensures GroupsShared(SetStatus(t, ids, status))
  {
    var r := SetStatus(t, ids, status);
    forall i | 0 <= i < |r| && r[i].groupId.Some? ensures HasSibling(r, i) {
      assert HasSibling(t, i);
      var j :| j != i && SameGroup(t, i, j);
      assert SameGroup(r, i, j);
    }
  }

  lemma {:induction false} CountEmailTwo(offers: seq<Offer>, email: string)
    ensures CountEmail(offers, email) > 0 ==> exists i :: 0 <= i < |offers| && offers[i].email == email
    ensures CountEmail(offers, email) > 1 ==>
      exists i, j :: 0 <= i < j < |offers| && offers[i].email == email && offers[j].email == email
  {
    if offers != [] {
      var n := |offers| - 1;
      CountEmailTwo(offers[..n], email);
      if CountEmail(offers, email) > 1 {
        if offers[n].email == email {
          var i :| 0 <= i < n && offers[..n][i].email == email;
          assert offers[i].email == email;
        } else {
          var i, j :| 0 <= i < j < n && offers[..n][i].email == email && offers[..n][j].email == email;
          assert offers[i].email == email && offers[j].email == email;
        }
      } else if CountEmail(offers, email) == 1 && offers[n].email != email {
        var i :| 0 <= i < n && offers[..n][i].email == email;
        assert offers[i].email == email;
      }
    }
  }

  lemma NewGroupsAreNew(t: Table, client: string, offers: seq<Offer>, gen: Generated, expiresOn: int)
    requires GroupsUniform(t) && Fresh(t, offers, gen)
    ensures GroupsUniform(t + NewRows(client, offers, gen, expiresOn))
  {
  }

  lemma NewGroupsAreShared(t: Table, client: string, offers: seq<Offer>, gen: Generated, expiresOn: int)
    requires GroupsShared(t) && |gen.codes| == |offers|
    ensures GroupsShared(t + NewRows(client, offers, gen, expiresOn))
  {
    var rows := NewRows(client, offers, gen, expiresOn);
    var r := t + rows;
    forall i | 0 <= i < |r| && r[i].groupId.Some? ensures HasSibling(r, i) {
      if i < |t| {
        assert HasSibling(t, i);
        var j :| j != i && SameGroup(t, i, j);
        assert SameGroup(r, i, j);
      } else {
        var email := offers[i - |t|].email;
        CountEmailTwo(offers, email);
        var a, b :| 0 <= a < b < |offers| && offers[a].email == email && offers[b].email == email;
        assert r[i] == rows[i - |t|] && r[|t| + a] == rows[a] && r[|t| + b] == rows[b];
        assert SameGroup(r, i, |t| + a) && SameGroup(r, i, |t| + b);
      }
    }
  }

  lemma {:induction false} CountEmailAtLeast(offers: seq<Offer>, email: string, i: nat)
    requires i < |offers| && offers[i].email == email
    ensures CountEmail(offers, email) >= 1
    ensures forall j :: i < j < |offers| && offers[j].email == email ==> CountEmail(offers, email) > 1
  {
    if i < |offers| - 1 {
      CountEmailAtLeast(offers[..|offers| - 1], email, i);
    }
  }

  /** Two rows created together share a group exactly when they are for one email. */
  lemma NewRowsShareGroupIff(
    t: Table, client: string, offers: seq<Offer>, gen: Generated, expiresOn: int, i: nat, j: nat)
    requires Fresh(t, offers, gen) && i < j < |offers|
    ensures var rows := NewRows(client, offers, gen, expiresOn);
      rows[i].groupId.Some? && rows[i].groupId == rows[j].groupId <==> offers[i].email == offers[j].email
  {
    CountEmailAtLeast(offers, offers[i].email, i);
  }

  lemma CreateKeepsGood(t: Table, client: string, offers: seq<Offer>, gen: Generated, expiresOn: int)
    requires Good(t) && Distinct(offers) && Fresh(t, offers, gen)
    requires forall o :: o in offers ==> !IsPending(t, client, o)
    ensures Good(t + NewRows(client, offers, gen, expiresOn))
  {
    var rows := NewRows(client, offers, gen, expiresOn);
    var r := t + rows;
    NewGroupsAreNew(t, client, offers, gen, expiresOn);
    NewGroupsAreShared(t, client, offers, gen, expiresOn);
    forall i, j | 0 <= i < j < |r| && r[i].status == PENDING && r[j].status == PENDING
      ensures !(r[i].clientId == r[j].clientId && r[i].offer == r[j].offer)
    {
      if i < |t| <= j {
        assert r[j].offer == offers[j - |t|] && offers[j - |t|] in offers;
      } else if |t| <= i {
        assert r[i].offer == offers[i - |t|] && r[j].offer == offers[j - |t|];
      }
    }
  }

  lemma TogetherIsClosed(t: Table, id: nat)
    requires GroupsUniform(t) && id < |t| && t[id].status == PENDING
    ensures GroupClosed(t, Together(t, id)) && id in Together(t, id)
    ensures forall i :: i in Together(t, id) ==> i < |t| && t[i].status == PENDING
  {
  }

  lemma RevokedIdsClosed(t: Table, id: nat, visible: set<string>)
    requires GroupsUniform(t) && RevokeCheck(t, id, visible).None?
    ensures GroupClosed(t, RevokedIds(t, id, visible))
  {
  }

  lemma CheckedOffersAreNotPending(
    t: Table, client: string, offers: seq<Offer>, sites: map<string, string>, roles: set<string>)
    requires CreateCheck(t, client, offers, sites, roles).None?
    ensures forall o :: o in offers ==> !IsPending(t, client, o)
  {
  }

  /** Rows revoked for a renewal no longer count as pending. */
  lemma RenewedOffersAreDistinct(t: Table, id: nat, order: seq<nat>)
    requires Good(t) && id < |t| && t[id].status == PENDING && Lists(order, Together(t, id))
    ensures forall i :: 0 <= i < |order| ==> order[i] < |t| && t[order[i]].status == PENDING
    ensures forall i :: 0 <= i < |order| ==>
      t[order[i]].clientId == t[id].clientId && t[order[i]].offer.email == t[id].offer.email
    ensures Distinct(OffersOf(t, order))
  {
    TogetherIsClosed(t, id);
    forall i | 0 <= i < |order|
      ensures order[i] < |t| && t[order[i]].status == PENDING
      ensures t[order[i]].clientId == t[id].clientId && t[order[i]].offer.email == t[id].offer.email
    {
      assert order[i] in Together(t, id);
      assert order[i] != id ==> SameGroup(t, id, order[i]);
    }
  }

  lemma FreshAfterStatusChange(t: Table, ids: set<nat>, status: Status, offers: seq<Offer>, gen: Generated)
    requires Fresh(t, offers, gen)
    ensures Fresh(SetStatus(t, ids, status), offers, gen)
  {
  }

  lemma RenewKeepsGood(t: Table, op: Op)
    requires Good(t) && op.Renew? && Allowed(t, op)
    ensures Good(Apply(t, op))
  {
    if RenewCheck(t, op.id, op.visible).None? {
      var revoked := SetStatus(t, Together(t, op.id), REVOKED);
      var offers := OffersOf(t, op.order);
      TogetherIsClosed(t, op.id);
      SetStatusKeepsGood(t, Together(t, op.id), REVOKED);
      if RenewCreation(t, op.id, op.order, op.sites, op.roles).None? {
        RenewedOffersAreDistinct(t, op.id, op.order);
        FreshAfterStatusChange(t, Together(t, op.id), REVOKED, offers, op.gen);
        CheckedOffersAreNotPending(revoked, t[op.id].clientId, offers, op.sites, op.roles);
        CreateKeepsGood(revoked, t[op.id].clientId, offers, op.gen, op.expiresOn);
      }
    }
  }

  lemma StepKeepsGood(t: Table, op: Op)
    requires Good(t) && Allowed(t, op)
    ensures Good(Apply(t, op))
  {
    match op
    case CreateBulk(client, offers, sites, roles, gen, expiresOn) =>
      if CreateCheck(t, client, offers, sites, roles).None? {
        CheckedOffersAreNotPending(t, client, offers, sites, roles);
        CreateKeepsGood(t, client, offers, gen, expiresOn);
      }
    case Accept(code, email, now) =>
      var check := AcceptCheck(t, code, email, now);
      if check.Ok? {
        TogetherIsClosed(t, check.value);
        SetStatusKeepsGood(t, Together(t, check.value), ACCEPTED);
      }
    case Revoke(id, visible) =>
      if RevokeCheck(t, id, visible).None? {
        RevokedIdsClosed(t, id, visible);
        SetStatusKeepsGood(t, RevokedIds(t, id, visible), REVOKED);
      }
    case Renew(_, _, _, _, _, _, _) => RenewKeepsGood(t, op);
    case ExpireStale(visible, now) => SetStatusKeepsGood(t, Stale(t, visible, now), REVOKED);
  }

  // ---- Life of a row ----

  /** An invitation leaves PENDING for ACCEPTED or REVOKED and never returns; legacy EXPIRED may become REVOKED. */
  predicate StatusMayBecome(before: Status, after: Status) {
    || before == after
    || (before == PENDING && (after == ACCEPTED || after == REVOKED))
    || (before == EXPIRED && after == REVOKED)
  }

  /** No row is lost, and of each only the status changes, and only forward. */
  ghost predicate Evolves(t: Table, r: Table) {
    && |t| <= |r|
    && (forall i :: 0 <= i < |t| ==> r[i] == t[i].(status := r[i].status) && StatusMayBecome(t[i].status, r[i].status))
  }

  lemma SetStatusEvolves(t: Table, ids: set<nat>, status: Status)
    requires forall i :: i in ids && i < |t| ==> StatusMayBecome(t[i].status, status)
    ensures Evolves(t, SetStatus(t, ids, status))
  {
  }

  lemma AppendEvolves(t: Table, r: Table, rows: Table)
    requires Evolves(t, r)
    ensures Evolves(t, r + rows)
  {
  }

  lemma RenewEvolves(t: Table, op: Op)
    requires GroupsUniform(t) && op.Renew? && Allowed(t, op)
    ensures Evolves(t, Apply(t, op))
  {
  }

  lemma StepEvolves(t: Table, op: Op)
    requires GroupsUniform(t) && Allowed(t, op)
    ensures Evolves(t, Apply(t, op))
  {
    match op
    case CreateBulk(client, offers, _, _, gen, expiresOn) =>
      AppendEvolves(t, t, NewRows(client, offers, gen, expiresOn));
    case Accept(code, email, now) =>
      var check := AcceptCheck(t, code, email, now);
      if check.Ok? {
        TogetherIsClosed(t, check.value);
        SetStatusEvolves(t, Together(t, check.value), ACCEPTED);
      }
    case Revoke(id, visible) =>
      if RevokeCheck(t, id, visible).None? {
        SetStatusEvolves(t, RevokedIds(t, id, visible), REVOKED);
      }
    case Renew(_, _, _, _, _, _, _) => RenewEvolves(t, op);
    case ExpireStale(visible, now) => SetStatusEvolves(t, Stale(t, visible, now), REVOKED);
  }

  // ---- Runs from an empty table ----

  ghost predicate Legal(ops: seq<Op>)
    decreases |ops|, 0
  {
    ops == [] || (Legal(ops[..|ops| - 1]) && Allowed(After(ops[..|ops| - 1]), ops[|ops| - 1]))
  }

  ghost function After(ops: seq<Op>): Table
    requires Legal(ops)
    decreases |ops|, 1
  {
    if ops == [] then [] else Apply(After(ops[..|ops| - 1]), ops[|ops| - 1])
  }

  /** In every run: unique pending tuples, uniform groups of at least two, unique codes. */
  lemma {:induction false} RunsAreGood(ops: seq<Op>)
    requires Legal(ops)
    ensures Good(After(ops))
  {
    if ops != [] {
      RunsAreGood(ops[..|ops| - 1]);
      StepKeepsGood(After(ops[..|ops| - 1]), ops[|ops| - 1]);
    }
  }

  lemma {:induction false} LegalPrefix(ops: seq<Op>, n: nat)
    requires Legal(ops) && n <= |ops|
    ensures Legal(ops[..n])
  {
    if n < |ops| {
      LegalPrefix(ops[..|ops| - 1], n);
      assert ops[..|ops| - 1][..n] == ops[..n];
    } else {
      assert ops[..n] == ops;
    }
  }

  /** Between any two points of a run rows only evolve; in particular ACCEPTED is never left. */
  lemma {:induction false} RunsEvolve(ops: seq<Op>, n: nat)
    requires Legal(ops) && n <= |ops|
    ensures Legal(ops[..n]) && Evolves(After(ops[..n]), After(ops))
    ensures forall i :: 0 <= i < |After(ops[..n])| && After(ops[..n])[i].status == ACCEPTED ==>
      After(ops)[i] == After(ops[..n])[i]
  {
    LegalPrefix(ops, n);
    if n == |ops| {
      assert ops[..n] == ops;
    } else {
      var before := ops[..|ops| - 1];
      RunsEvolve(before, n);
      assert before[..n] == ops[..n];
      RunsAreGood(before);
      StepEvolves(After(before), ops[|ops| - 1]);
    }
  }

  // ---- Accepting a group ----

  /**
   What accepting row `id` takes: its whole group, all pending and not expired, of one email and client and
   with different assignments; or the row alone.
   */
  ghost predicate TakesWholeGroup(t: Table, id: nat, email: string, now: int)
    requires id < |t|
  {
    var ids := Together(t, id);
    && id in ids
    && (t[id].groupId.Some? ==> ids == Members(t, t[id].groupId.value) && |ids| > 1)
    && (forall i :: i in ids ==>
          && i < |t| && t[i].status == PENDING && now <= t[i].expiresOn
          && t[i].clientId == t[id].clientId && Lower(t[i].offer.email) == Lower(email))
    && (forall i, j :: i in ids && j in ids && i != j ==> t[i].offer != t[j].offer)
  }

  lemma AcceptTakesWholeGroup(t: Table, code: string, email: string, now: int)
    requires Good(t) && AcceptCheck(t, code, email, now).Ok?
    ensures var id := AcceptCheck(t, code, email, now).value;
      id < |t| && t[id].code == code && TakesWholeGroup(t, id, email, now)
  {
    var id := AcceptCheck(t, code, email, now).value;
    var ids := Together(t, id);
    TogetherIsClosed(t, id);
    forall i | i in ids && i != id ensures SameGroup(t, id, i) {
    }
    if t[id].groupId.Some? {
      var members := Members(t, t[id].groupId.value);
      assert forall i :: i in members ==> SameGroup(t, id, i);
      assert ids == members;
      assert HasSibling(t, id);
      var j: nat :| j != id && SameGroup(t, id, j);
      assert {id, j} <= ids;
      SubsetSize({id, j}, ids);
    }
  }

  /** In every run an accept takes the whole group, so the warning about a partial group is never logged. */
  lemma EveryAcceptTakesWholeGroup(ops: seq<Op>, code: string, email: string, now: int)
    requires Legal(ops)
    ensures var t := After(ops); var check := AcceptCheck(t, code, email, now);
      check.Ok? ==> check.value < |t| && t[check.value].code == code && TakesWholeGroup(t, check.value, email, now)
  {
    RunsAreGood(ops);
    if AcceptCheck(After(ops), code, email, now).Ok? {
      AcceptTakesWholeGroup(After(ops), code, email, now);
    }
  }

  lemma {:induction false} SubsetSize(a: set<nat>, b: set<nat>)
    requires a <= b
    ensures |a| <= |b|
  {
    if a != {} {
      var x :| x in a;
      SubsetSize(a - {x}, b - {x});
    }
  }

  // ---- What each operation answers and changes ----

  /** The row with a code. */
  predicate HasCode(t: Table, i: int, code: string) { 0 <= i < |t| && t[i].code == code }

  lemma FindCodeIs(t: Table, code: string)
    requires CodesUnique(t)
    ensures forall i :: HasCode(t, i, code) ==> FindCode(t, code) == Some(i)
  {
  }

  /** When an accept succeeds, and for which row. */
  lemma AcceptSucceedsIff(t: Table, code: string, email: string, now: int, i: nat)
    requires CodesUnique(t)
    ensures AcceptCheck(t, code, email, now) == Ok(i) <==>
      && HasCode(t, i, code) && t[i].status == PENDING && now <= t[i].expiresOn
      && Lower(email) == Lower(t[i].offer.email)
  {
    FindCodeIs(t, code);
  }

  /** In every run. */
  lemma EveryAcceptSucceedsIff(ops: seq<Op>, code: string, email: string, now: int, i: nat)
    requires Legal(ops)
    ensures var t := After(ops);
      AcceptCheck(t, code, email, now) == Ok(i) <==>
        && HasCode(t, i, code) && t[i].status == PENDING && now <= t[i].expiresOn
        && Lower(email) == Lower(t[i].offer.email)
  {
    RunsAreGood(ops);
    AcceptSucceedsIff(After(ops), code, email, now, i);
  }

  /** When it fails, and with which answer. */
  lemma AcceptFailsIff(t: Table, code: string, email: string, now: int)
    requires CodesUnique(t)
    ensures AcceptCheck(t, code, email, now) == Err(NotFound) <==> forall i :: 0 <= i < |t| ==> t[i].code != code
    ensures AcceptCheck(t, code, email, now) == Err(AlreadyAccepted) <==>
      exists i :: HasCode(t, i, code) && t[i].status == ACCEPTED
    ensures AcceptCheck(t, code, email, now) == Err(Gone) <==>
      exists i :: HasCode(t, i, code) && (t[i].status == REVOKED || t[i].status == EXPIRED
                                          || (t[i].status == PENDING && now > t[i].expiresOn))
    ensures AcceptCheck(t, code, email, now) == Err(OtherEmail) <==>
      exists i :: HasCode(t, i, code) && t[i].status == PENDING && now <= t[i].expiresOn
                  && Lower(email) != Lower(t[i].offer.email)
  {
    FindCodeIs(t, code);
    if i :| HasCode(t, i, code) {
      assert FindCode(t, code) == Some(i);
    }
  }

  /** An accept marks the row and the pending rows of its group, and nothing else; a refused one changes nothing. */
  lemma AcceptChanges(t: Table, code: string, email: string, now: int, j: nat)
    requires CodesUnique(t) && j < |t|
    ensures var check, r := AcceptCheck(t, code, email, now), AcceptTable(t, code, email, now);
      && |r| == |t|
      && r[j] == if check.Ok? && t[j].status == PENDING && (check.value == j || SameGroup(t, check.value, j))
                 then t[j].(status := ACCEPTED) else t[j]
  {
  }

  /** A revoke is refused exactly for rows out of sight and accepted ones. */
  lemma RevokeAnswers(t: Table, id: nat, visible: set<string>)
    ensures RevokeCheck(t, id, visible) == None <==> id < |t| && t[id].clientId in visible && t[id].status != ACCEPTED
    ensures RevokeCheck(t, id, visible) == Some(IsAccepted) <==>
      id < |t| && t[id].clientId in visible && t[id].status == ACCEPTED
  {
  }

  /**
   A revoke takes the row, if it is in no group, or the visible pending rows of its group; afterwards neither the
   row nor any visible sibling is pending.
   */
  lemma RevokeChanges(t: Table, id: nat, visible: set<string>, j: nat)
    requires id < |t| && j < |t|
    ensures var ok, r := RevokeCheck(t, id, visible).None?, RevokeTable(t, id, visible);
      && |r| == |t|
      && r[j] == (if ok && (if t[id].groupId.None? then j == id
                            else SameGroup(t, id, j) && t[j].status == PENDING && t[j].clientId in visible)
                  then t[j].(status := REVOKED) else t[j])
      && (ok && (j == id || (SameGroup(t, id, j) && t[j].clientId in visible)) ==> r[j].status != PENDING)
  {
  }

  /** A renewal is refused exactly for rows out of sight and rows not pending; there is always something to renew. */
  lemma RenewAnswers(t: Table, id: nat, visible: set<string>)
    ensures RenewCheck(t, id, visible) == None <==> id < |t| && t[id].clientId in visible && t[id].status == PENDING
    ensures RenewCheck(t, id, visible) == Some(NoSuchRow) <==> id >= |t| || t[id].clientId !in visible
    ensures id < |t| && t[id].clientId in visible && t[id].status != PENDING ==>
      RenewCheck(t, id, visible) == Some(NotRenewable(t[id].status))
    ensures RenewCheck(t, id, visible) != Some(NothingToRenew)
  {
    if id < |t| && t[id].status == PENDING {
      assert id in Together(t, id);
    }
  }

  /** Expiring revokes exactly the pending rows past their date that the caller sees. */
  lemma ExpireChanges(t: Table, visible: set<string>, now: int, j: nat)
    requires j < |t|
    ensures SetStatus(t, Stale(t, visible, now), REVOKED)[j]
      == if t[j].status == PENDING && t[j].expiresOn < now && t[j].clientId in visible
         then t[j].(status := REVOKED) else t[j]
  {
  }

  /** Creation succeeds exactly when all sites and roles are valid and no tuple is pending at the client. */
  lemma CreateSucceedsIff(t: Table, client: string, offers: seq<Offer>, sites: map<string, string>, roles: set<string>)
    ensures CreateCheck(t, client, offers, sites, roles) == None <==>
      && (forall o :: o in offers ==> o.siteId in sites && sites[o.siteId] == client && o.roleId in roles)
      && (forall i :: 0 <= i < |t| && t[i].status == PENDING && t[i].clientId == client ==> t[i].offer !in offers)
  {
    SiteErrorKind(offers, sites, client);
    RoleErrorKind(offers, roles);
    if CreateCheck(t, client, offers, sites, roles).None? {
      forall i | 0 <= i < |t| && t[i].status == PENDING && t[i].clientId == client ensures t[i].offer !in offers {
        CheckedOffersAreNotPending(t, client, offers, sites, roles);
        assert IsPending(t, client, t[i].offer);
      }
    } else if forall o :: o in offers ==> !IsPending(t, client, o) {
      FilterNone(offers, o => IsPending(t, client, o));
    }
  }

  /** Otherwise the first bad site is named, or else the first bad role, or else all conflicts. */
  lemma CreateFailsWith(t: Table, client: string, offers: seq<Offer>, sites: map<string, string>, roles: set<string>)
    requires CreateCheck(t, client, offers, sites, roles).Some?
    ensures match CreateCheck(t, client, offers, sites, roles).value
      case SiteNotFound(s) =>
        s !in sites && exists i :: FirstBadSite(offers, sites, client, i) && offers[i].siteId == s
      case SiteOfOtherClient(s) =>
        s in sites && exists i :: FirstBadSite(offers, sites, client, i) && offers[i].siteId == s
      case RoleNotFound(r) => exists i :: FirstBadRole(offers, roles, i) && offers[i].roleId == r
      case AlreadyPending(conflicts) =>
        conflicts != [] && forall o :: o in conflicts <==> o in offers && IsPending(t, client, o)
  {
    FirstSiteErrorIs(offers, sites, client);
    FirstRoleErrorIs(offers, roles);
  }

  predicate BadSite(o: Offer, sites: map<string, string>, client: string) {
    o.siteId !in sites || sites[o.siteId] != client
  }

  predicate FirstBadSite(offers: seq<Offer>, sites: map<string, string>, client: string, i: int) {
    && 0 <= i < |offers| && BadSite(offers[i], sites, client)
    && forall j :: 0 <= j < i ==> !BadSite(offers[j], sites, client)
  }

  predicate FirstBadRole(offers: seq<Offer>, roles: set<string>, i: int) {
    0 <= i < |offers| && offers[i].roleId !in roles && forall j :: 0 <= j < i ==> offers[j].roleId in roles
  }

  function ErrorOf(o: Offer, sites: map<string, string>): CreateError {
    if o.siteId in sites then SiteOfOtherClient(o.siteId) else SiteNotFound(o.siteId)
  }

  lemma {:induction false} FirstSiteErrorIs(offers: seq<Offer>, sites: map<string, string>, client: string)
    ensures var e := SiteError(offers, sites, client);
      e.Some? ==> exists i :: FirstBadSite(offers, sites, client, i) && e == Some(ErrorOf(offers[i], sites))
  {
    if offers != [] {
      if BadSite(offers[0], sites, client) {
        assert FirstBadSite(offers, sites, client, 0);
      } else if SiteError(offers[1..], sites, client).Some? {
        var e := SiteError(offers[1..], sites, client);
        FirstSiteErrorIs(offers[1..], sites, client);
        var i :| FirstBadSite(offers[1..], sites, client, i) && e == Some(ErrorOf(offers[1..][i], sites));
        assert FirstBadSite(offers, sites, client, i + 1);
      }
    }
  }

  lemma {:induction false} FirstRoleErrorIs(offers: seq<Offer>, roles: set<string>)
    ensures RoleError(offers, roles).Some? ==>
      exists i :: FirstBadRole(offers, roles, i) && RoleError(offers, roles).value == RoleNotFound(offers[i].roleId)
  {
    if offers != [] {
      if offers[0].roleId !in roles {
        assert FirstBadRole(offers, roles, 0);
      } else if RoleError(offers[1..], roles).Some? {
        FirstRoleErrorIs(offers[1..], roles);
        var i :| FirstBadRole(offers[1..], roles, i)
                 && RoleError(offers[1..], roles).value == RoleNotFound(offers[1..][i].roleId);
        assert FirstBadRole(offers, roles, i + 1);
      }
    }
  }

  // ---- Expiry ----

  lemma {:induction false} FindCodeIgnoresStatus(t: Table, r: Table, code: string)
    requires |t| == |r| && forall i :: 0 <= i < |t| ==> t[i].code == r[i].code
    ensures FindCode(t, code) == FindCode(r, code)
  {
    if t != [] {
      FindCodeIgnoresStatus(t[..|t| - 1], r[..|r| - 1], code);
    }
  }

  /** Expiring leaves no stale row that the caller sees, and no invitee can tell: every code is answered as before. */
  lemma ExpireIsInvisible(t: Table, visible: set<string>, now: int, code: string, email: string, later: int)
    requires now <= later
    ensures var r := SetStatus(t, Stale(t, visible, now), REVOKED);
      && Stale(r, visible, now) == {}
      && AcceptCheck(r, code, email, later) == AcceptCheck(t, code, email, later)
  {
    FindCodeIgnoresStatus(t, SetStatus(t, Stale(t, visible, now), REVOKED), code);
  }

  // ---- Renewal ----

  /** No offer of the renewed rows is pending once these are revoked. */
  lemma NoConflictAfterRevoke(t: Table, id: nat, order: seq<nat>, k: nat)
    requires Good(t) && id < |t| && t[id].status == PENDING && Lists(order, Together(t, id)) && k < |order|
    ensures order[k] < |t|
    ensures !IsPending(SetStatus(t, Together(t, id), REVOKED), t[id].clientId, t[order[k]].offer)
  {
    RenewedOffersAreDistinct(t, id, order);
    var revoked := SetStatus(t, Together(t, id), REVOKED);
    forall i | 0 <= i < |t| && revoked[i].status == PENDING
      ensures !(revoked[i].clientId == t[id].clientId && revoked[i].offer == t[order[k]].offer)
    {
      assert order[k] in Together(t, id);
      assert i != order[k] && t[i] == revoked[i] && t[order[k]].status == PENDING;
    }
  }

  /** After the revoke, creation fails exactly for a site or role that is no longer valid. */
  lemma RenewCreationFailsIff(t: Table, op: Op)
    requires Good(t) && op.Renew? && Allowed(t, op) && RenewCheck(t, op.id, op.visible).None?
    ensures var e := RenewCreation(t, op.id, op.order, op.sites, op.roles);
      (e.Some? ==> !e.value.AlreadyPending?) && (e.None? <==> StillValid(t, op))
  {
    var revoked, client := SetStatus(t, Together(t, op.id), REVOKED), t[op.id].clientId;
    var offers := OffersOf(t, op.order);
    forall o | o in offers ensures !IsPending(revoked, client, o) {
      var k :| 0 <= k < |offers| && offers[k] == o;
      NoConflictAfterRevoke(t, op.id, op.order, k);
    }
    FilterNone(offers, o => IsPending(revoked, client, o));
    SiteErrorKind(offers, op.sites, client);
    RoleErrorKind(offers, op.roles);
  }

  lemma {:induction false} SiteErrorKind(offers: seq<Offer>, sites: map<string, string>, client: string)
    ensures var e := SiteError(offers, sites, client);
      && (e.Some? ==> e.value.SiteNotFound? || e.value.SiteOfOtherClient?)
      && (e.None? <==> forall o :: o in offers ==> o.siteId in sites && sites[o.siteId] == client)
  {
    if offers != [] {
      SiteErrorKind(offers[1..], sites, client);
    }
  }

  lemma {:induction false} RoleErrorKind(offers: seq<Offer>, roles: set<string>)
    ensures var e := RoleError(offers, roles);
      && (e.Some? ==> e.value.RoleNotFound?)
      && (e.None? <==> forall o :: o in offers ==> o.roleId in roles)
  {
    if offers != [] {
      RoleErrorKind(offers[1..], roles);
    }
  }

  datatype Tuple = Tuple(clientId: string, offer: Offer)

  /** The tuples now on offer. */
  function PendingTuples(t: Table): set<Tuple> {
    set i | 0 <= i < |t| && t[i].status == PENDING :: Tuple(t[i].clientId, t[i].offer)
  }

  lemma {:induction false} CountEmailAll(offers: seq<Offer>, email: string)
    requires forall o :: o in offers ==> o.email == email
    ensures CountEmail(offers, email) == |offers|
  {
    if offers != [] {
      CountEmailAll(offers[..|offers| - 1], email);
    }
  }

  /** The sites and roles of the rows to renew are still valid for the caller. */
  ghost predicate StillValid(t: Table, op: Op)
    requires op.Renew?
    requires op.id < |t|
    requires forall i :: 0 <= i < |op.order| ==> op.order[i] < |t|
  {
    forall o :: o in OffersOf(t, op.order) ==>
      o.siteId in op.sites && op.sites[o.siteId] == t[op.id].clientId && o.roleId in op.roles
  }

  lemma RenewedGroupSize(t: Table, id: nat)
    requires GroupsUniform(t) && GroupsShared(t) && id < |t| && t[id].status == PENDING
    ensures |Together(t, id)| > 1 <==> t[id].groupId.Some?
  {
    var ids := Together(t, id);
    if t[id].groupId.Some? {
      assert HasSibling(t, id);
      var j: nat :| j != id && SameGroup(t, id, j);
      assert {id, j} <= ids;
      SubsetSize({id, j}, ids);
    }
  }

  /** The group of the re-issued rows: one fresh group with exactly these rows, or none for a single row. */
  lemma ReissuedGroup(t: Table, id: nat, order: seq<nat>, gen: Generated, expiresOn: int)
    requires id < |t| && (forall i :: 0 <= i < |order| ==> order[i] < |t|) && Fresh(t, OffersOf(t, order), gen)
    requires forall i :: 0 <= i < |order| ==> t[order[i]].offer.email == t[id].offer.email
    ensures var r := Reissued(t, id, order, gen, expiresOn);
      && |r| == |t| + |order|
      && (|order| > 1 ==> forall k :: 0 <= k < |r| ==>
            (r[k].groupId == r[|t|].groupId <==> |t| <= k) && (|t| <= k ==> r[k].groupId.Some?))
      && (|order| == 1 ==> r[|t|].groupId.None?)
  {
    var offers, email := OffersOf(t, order), t[id].offer.email;
    CountEmailAll(offers, email);
    if |order| > 1 {
      assert offers[0].email in gen.groups;
    }
  }

  /**
   `r` is `t` after the rows listed in `order` were renewed: as many fresh pending rows with exactly
   their offers, in one fresh group, or one ungrouped row; the old rows revoked; nothing else changed.
   */
  ghost predicate IsRenewal(t: Table, r: Table, id: nat, order: seq<nat>, expiresOn: int)
    requires id < |t| && forall i :: 0 <= i < |order| ==> order[i] < |t|
  {
    && |r| == |t| + |order|
    && (forall i :: 0 <= i < |t| ==> r[i] == if i in order then t[i].(status := REVOKED) else t[i])
    && (forall k :: |t| <= k < |r| ==>
          && r[k].offer == t[order[k - |t|]].offer && r[k].clientId == t[id].clientId
          && r[k].status == PENDING && r[k].expiresOn == expiresOn)
    && (t[id].groupId.None? ==> |order| == 1 && r[|t|].groupId.None?)
    && (t[id].groupId.Some? ==> |order| > 1 && forall k :: 0 <= k < |r| ==>
          (r[k].groupId == r[|t|].groupId <==> |t| <= k) && (|t| <= k ==> r[k].groupId.Some?))
  }

  lemma ReissueIsRenewal(t: Table, id: nat, order: seq<nat>, gen: Generated, expiresOn: int)
    requires Good(t) && id < |t| && t[id].status == PENDING && Lists(order, Together(t, id))
    requires (forall i :: 0 <= i < |order| ==> order[i] < |t|) && Fresh(t, OffersOf(t, order), gen)
    ensures IsRenewal(t, Reissued(t, id, order, gen, expiresOn), id, order, expiresOn)
  {
    RenewedOffersAreDistinct(t, id, order);
    DistinctLength(order, Together(t, id));
    RenewedGroupSize(t, id);
    ReissuedGroup(t, id, order, gen, expiresOn);
  }

  /** A renewal of valid rows re-issues them, and the tuples on offer are the same as before. */
  lemma RenewConservesTheOffer(t: Table, op: Op)
    requires Good(t) && op.Renew? && Allowed(t, op) && RenewCheck(t, op.id, op.visible).None? && StillValid(t, op)
    ensures IsRenewal(t, Apply(t, op), op.id, op.order, op.expiresOn)
    ensures PendingTuples(Apply(t, op)) == PendingTuples(t)
  {
    RenewCreationFailsIff(t, op);
    ReissueIsRenewal(t, op.id, op.order, op.gen, op.expiresOn);
    RenewedOffersAreDistinct(t, op.id, op.order);
    ReissueKeepsPendingTuples(t, op.id, op.order, op.gen, op.expiresOn);
  }

  /** The rows listed are those together with `id`, all pending and of its client. */
  ghost predicate Listed(t: Table, id: nat, order: seq<nat>) {
    && id < |t|
    && (forall k :: 0 <= k < |order| ==>
      order[k] < |t| && t[order[k]].status == PENDING && t[order[k]].clientId == t[id].clientId)
    && forall i :: i in Together(t, id) ==> i in order
  }

  lemma ReissuedStillOffers(t: Table, id: nat, order: seq<nat>, gen: Generated, expiresOn: int, i: nat)
    requires Listed(t, id, order) && |gen.codes| == |order| && i < |t| && t[i].status == PENDING
    ensures Tuple(t[i].clientId, t[i].offer) in PendingTuples(Reissued(t, id, order, gen, expiresOn))
  {
    var r := Reissued(t, id, order, gen, expiresOn);
    if i in Together(t, id) {
      var k :| 0 <= k < |order| && order[k] == i;
      var n := |t| + k;
      assert r[n].status == PENDING && Tuple(r[n].clientId, r[n].offer) == Tuple(t[i].clientId, t[i].offer);
    } else {
      assert r[i] == t[i];
    }
  }

  lemma ReissuedWasOffered(t: Table, id: nat, order: seq<nat>, gen: Generated, expiresOn: int, i: nat)
    requires Listed(t, id, order) && |gen.codes| == |order| && i < |t| + |order|
    requires Reissued(t, id, order, gen, expiresOn)[i].status == PENDING
    ensures var x := Reissued(t, id, order, gen, expiresOn)[i]; Tuple(x.clientId, x.offer) in PendingTuples(t)
  {
  }

  lemma ReissueKeepsPendingTuples(t: Table, id: nat, order: seq<nat>, gen: Generated, expiresOn: int)
    requires Listed(t, id, order) && |gen.codes| == |order|
    ensures PendingTuples(Reissued(t, id, order, gen, expiresOn)) == PendingTuples(t)
  {
    var r := Reissued(t, id, order, gen, expiresOn);
    forall x | x in PendingTuples(t) ensures x in PendingTuples(r) {
      var i: nat :| i < |t| && t[i].status == PENDING && x == Tuple(t[i].clientId, t[i].offer);
      ReissuedStillOffers(t, id, order, gen, expiresOn, i);
    }
    forall x | x in PendingTuples(r) ensures x in PendingTuples(t) {
      var i: nat :| i < |r| && r[i].status == PENDING && x == Tuple(r[i].clientId, r[i].offer);
      ReissuedWasOffered(t, id, order, gen, expiresOn, i);
    }
  }

  function TuplesOf(t: Table, ids: set<nat>): set<Tuple> {
    set i | i in ids && i < |t| :: Tuple(t[i].clientId, t[i].offer)
  }

  lemma RevokedTuplesAreGone(t: Table, id: nat)
    requires Good(t) && id < |t| && t[id].status == PENDING
    ensures var lost := TuplesOf(t, Together(t, id));
      && PendingTuples(SetStatus(t, Together(t, id), REVOKED)) == PendingTuples(t) - lost
      && Tuple(t[id].clientId, t[id].offer) in lost * PendingTuples(t)
  {
  }

  /** When a site or role is no longer valid the offer is lost: the old rows are revoked and none replaces them. */
  lemma RenewOfInvalidRowsLosesTheOffer(t: Table, op: Op)
    requires Good(t) && op.Renew? && Allowed(t, op) && RenewCheck(t, op.id, op.visible).None? && !StillValid(t, op)
    ensures var lost := TuplesOf(t, Together(t, op.id));
      && Apply(t, op) == SetStatus(t, Together(t, op.id), REVOKED)
      && PendingTuples(Apply(t, op)) == PendingTuples(t) - lost
      && lost * PendingTuples(t) != {}
  {
    RenewCreationFailsIff(t, op);
    RevokedTuplesAreGone(t, op.id);
  }

  /** What a renewal does: never a conflict; it conserves the offer exactly when sites and roles are still valid. */
  ghost predicate RenewsSoundly(t: Table, op: Op)
    requires op.Renew? && Allowed(t, op) && RenewCheck(t, op.id, op.visible).None?
  {
    var e := RenewCreation(t, op.id, op.order, op.sites, op.roles);
    && (e.Some? ==> !e.value.AlreadyPending?)
    && (e.None? <==> StillValid(t, op))
    && (StillValid(t, op) ==> IsRenewal(t, Apply(t, op), op.id, op.order, op.expiresOn))
    && (StillValid(t, op) <==> PendingTuples(Apply(t, op)) == PendingTuples(t))
  }

  lemma GoodRenewsSoundly(t: Table, op: Op)
    requires Good(t) && op.Renew? && Allowed(t, op) && RenewCheck(t, op.id, op.visible).None?
    ensures RenewsSoundly(t, op)
  {
    RenewCreationFailsIff(t, op);
    if StillValid(t, op) {
      RenewConservesTheOffer(t, op);
    } else {
      RenewOfInvalidRowsLosesTheOffer(t, op);
    }
  }

  /** In every run. */
  lemma EveryRenewalIsSound(ops: seq<Op>, op: Op)
    requires Legal(ops)
    ensures var t := After(ops);
      op.Renew? && Allowed(t, op) && RenewCheck(t, op.id, op.visible).None? ==> RenewsSoundly(t, op)
  {
    RunsAreGood(ops);
    var t := After(ops);
    if op.Renew? && Allowed(t, op) && RenewCheck(t, op.id, op.visible).None? {
      GoodRenewsSoundly(t, op);
    }
  }

  lemma CreateSucceeds(t: Table, client: string, offers: seq<Offer>, sites: map<string, string>, roles: set<string>)
    requires forall o :: o in offers ==>
      o.siteId in sites && sites[o.siteId] == client && o.roleId in roles && !IsPending(t, client, o)
    ensures CreateCheck(t, client, offers, sites, roles) == None
  {
    SiteErrorKind(offers, sites, client);
    RoleErrorKind(offers, roles);
    FilterNone(offers, o => IsPending(t, client, o));
  }

  /** Creating one valid invitation from nothing. */
  lemma CreateFirst(client: string, offer: Offer, code: string, expiresOn: int)
    ensures var sites := map[offer.siteId := client];
      var op := CreateBulk(client, [offer], sites, {offer.roleId}, Generated([code], map[]), expiresOn);
      Allowed([], op) && Apply([], op) == [Invitation(code, client, offer, None, PENDING, expiresOn)]
  {
    CreateSucceeds([], client, [offer], map[offer.siteId := client], {offer.roleId});
    assert [offer][..0] == [] && CountEmail([offer], offer.email) == 1;
  }

  /** The failing input: a renewal by a caller who does not see the invitation's site leaves nothing on offer. */
  lemma RenewalCanLoseTheOffer(client: string, offer: Offer, x: string, y: string, now: int)
    requires x != y
    ensures var sites := map[offer.siteId := client];
      var ops := [CreateBulk(client, [offer], sites, {offer.roleId}, Generated([x], map[]), now)];
      var op := Renew(0, {client}, [0], map[], {offer.roleId}, Generated([y], map[]), now);
      && Legal(ops) && Allowed(After(ops), op) && RenewCheck(After(ops), 0, {client}).None?
      && PendingTuples(Apply(After(ops), op)) != PendingTuples(After(ops))
  {
    var ops := [CreateBulk(client, [offer], map[offer.siteId := client], {offer.roleId}, Generated([x], map[]), now)];
    var op := Renew(0, {client}, [0], map[], {offer.roleId}, Generated([y], map[]), now);
    CreateFirst(client, offer, x, now);
    assert ops[..0] == [] && After([]) == [];
    var t := [Invitation(x, client, offer, None, PENDING, now)];
    assert After(ops) == t;
    assert Together(t, 0) == {0} && OffersOf(t, [0]) == [offer] && [offer][..0] == [];
    assert CountEmail([offer], offer.email) == 1;
    assert !StillValid(t, op) by {
      assert offer in OffersOf(t, [0]);
    }
    EveryRenewalIsSound(ops, op);
  }
}
